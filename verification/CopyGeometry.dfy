/**
 Where the compiled copy operations lie: when they are safe to run, which bytes they pair up,
 and when they reach every byte of the wire payload.
 */
module CopyGeometry {
  import opened LayoutDump
  import opened CopyCompiler

  // ---------- meaning of an operation list ----------

  predicate Apart(a: nat, aLen: nat, b: nat, bLen: nat) {
    a + aLen <= b || b + bLen <= a
  }

  predicate InBounds(ops: seq<Op>, wireSize: nat, ourSize: nat) {
    forall i :: 0 <= i < |ops| ==> ops[i].wire + ops[i].len <= wireSize && ops[i].our + ops[i].len <= ourSize
  }

  predicate Disjoint(ops: seq<Op>) {
    forall i, j :: 0 <= i < j < |ops| ==>
      && Apart(ops[i].wire, ops[i].len, ops[j].wire, ops[j].len)
      && Apart(ops[i].our, ops[i].len, ops[j].our, ops[j].len)
  }

  /** Every operation stays inside both payloads and no byte is touched twice on either side. */
  predicate Safe(ops: seq<Op>, wireSize: nat, ourSize: nat) {
    InBounds(ops, wireSize, ourSize) && Disjoint(ops)
  }

  predicate OnWire(op: Op, k: nat) {
    op.wire <= k < op.wire + op.len
  }

  predicate WireCovered(ops: seq<Op>, k: nat) {
    exists i :: 0 <= i < |ops| && OnWire(ops[i], k)
  }

  predicate CoversWire(ops: seq<Op>, lo: nat, hi: nat) {
    forall k :: lo <= k < hi ==> WireCovered(ops, k)
  }

  /** Shifting `len` bytes from one start to another pairs byte `w` with byte `o`. */
  predicate Shifted(wire: nat, our: nat, len: nat, w: nat, o: nat) {
    wire <= w < wire + len && w - wire == o - our
  }

  predicate Pairs(ops: seq<Op>, w: nat, o: nat) {
    exists i :: 0 <= i < |ops| && Shifted(ops[i].wire, ops[i].our, ops[i].len, w, o)
  }

  // ---------- ordered lists ----------

  /** The operations advance on both sides inside the given windows. */
  predicate Ordered(ops: seq<Op>, wLo: nat, wHi: nat, oLo: nat, oHi: nat) {
    if ops == [] then
      wLo <= wHi && oLo <= oHi
    else
      && wLo <= ops[0].wire && oLo <= ops[0].our && ops[0].len > 0
      && Ordered(ops[1..], ops[0].wire + ops[0].len, wHi, ops[0].our + ops[0].len, oHi)
  }

  lemma {:induction false} OrderedWithin(ops: seq<Op>, wLo: nat, wHi: nat, oLo: nat, oHi: nat)
    requires Ordered(ops, wLo, wHi, oLo, oHi)
    ensures wLo <= wHi && oLo <= oHi
    ensures forall i :: 0 <= i < |ops| ==>
              && wLo <= ops[i].wire && ops[i].wire + ops[i].len <= wHi
              && oLo <= ops[i].our && ops[i].our + ops[i].len <= oHi
    decreases |ops|
  {
    if ops != [] {
      OrderedWithin(ops[1..], ops[0].wire + ops[0].len, wHi, ops[0].our + ops[0].len, oHi);
      forall i | 0 < i < |ops|
        ensures wLo <= ops[i].wire && ops[i].wire + ops[i].len <= wHi
        ensures oLo <= ops[i].our && ops[i].our + ops[i].len <= oHi
      {
        assert ops[i] == ops[1..][i - 1];
      }
    }
  }

  lemma {:induction false} OrderedIsSafe(ops: seq<Op>, wLo: nat, wHi: nat, oLo: nat, oHi: nat)
    requires Ordered(ops, wLo, wHi, oLo, oHi)
    ensures Safe(ops, wHi, oHi)
    decreases |ops|
  {
    OrderedWithin(ops, wLo, wHi, oLo, oHi);
    if ops != [] {
      var rest := ops[1..];
      OrderedIsSafe(rest, ops[0].wire + ops[0].len, wHi, ops[0].our + ops[0].len, oHi);
      OrderedWithin(rest, ops[0].wire + ops[0].len, wHi, ops[0].our + ops[0].len, oHi);
      forall i, j | 0 <= i < j < |ops|
        ensures Apart(ops[i].wire, ops[i].len, ops[j].wire, ops[j].len)
        ensures Apart(ops[i].our, ops[i].len, ops[j].our, ops[j].len)
      {
        assert ops[j] == rest[j - 1];
        if i > 0 {
          assert ops[i] == rest[i - 1];
        }
      }
    }
  }

  lemma {:induction false} OrderedConcat(
    a: seq<Op>, b: seq<Op>, wLo: nat, wMid: nat, wHi: nat, oLo: nat, oMid: nat, oHi: nat)
    requires Ordered(a, wLo, wMid, oLo, oMid) && Ordered(b, wMid, wHi, oMid, oHi)
    ensures Ordered(a + b, wLo, wHi, oLo, oHi)
    decreases |a|
  {
    if a == [] {
      assert a + b == b;
      OrderedWithin(b, wMid, wHi, oMid, oHi);
    } else {
      assert (a + b)[1..] == a[1..] + b;
      OrderedConcat(a[1..], b, a[0].wire + a[0].len, wMid, wHi, a[0].our + a[0].len, oMid, oHi);
    }
  }

  // ---------- tiling the wire ----------

  /** The operations follow one another on the wire without a gap. */
  predicate Tiles(ops: seq<Op>, lo: nat, hi: nat) {
    if ops == [] then lo == hi else ops[0].wire == lo && Tiles(ops[1..], lo + ops[0].len, hi)
  }

  lemma {:induction false} CoversIffTiles(ops: seq<Op>, wLo: nat, wHi: nat, oLo: nat, oHi: nat)
    requires Ordered(ops, wLo, wHi, oLo, oHi)
    ensures CoversWire(ops, wLo, wHi) <==> Tiles(ops, wLo, wHi)
    decreases |ops|
  {
    OrderedWithin(ops, wLo, wHi, oLo, oHi);
    if ops == [] {
      if wLo < wHi {
        assert !WireCovered(ops, wLo);
      }
    } else {
      var end, rest := ops[0].wire + ops[0].len, ops[1..];
      CoversIffTiles(rest, end, wHi, ops[0].our + ops[0].len, oHi);
      OrderedWithin(rest, end, wHi, ops[0].our + ops[0].len, oHi);
      if CoversWire(ops, wLo, wHi) {
        CoveredHead(ops, wLo, wHi, oLo, oHi);
      }
      if Tiles(ops, wLo, wHi) {
        forall k | wLo <= k < wHi ensures WireCovered(ops, k) {
          if k < end {
            assert OnWire(ops[0], k);
          } else {
            assert WireCovered(rest, k);
            var i :| 0 <= i < |rest| && OnWire(rest[i], k);
            assert OnWire(ops[i + 1], k);
          }
        }
      }
    }
  }

  /** Covering everything forces the first operation to the front and the rest to cover the rest. */
  lemma CoveredHead(ops: seq<Op>, wLo: nat, wHi: nat, oLo: nat, oHi: nat)
    requires ops != [] && Ordered(ops, wLo, wHi, oLo, oHi)
    requires CoversWire(ops, wLo, wHi)
    ensures ops[0].wire == wLo
    ensures CoversWire(ops[1..], ops[0].wire + ops[0].len, wHi)
  {
    var end, rest := ops[0].wire + ops[0].len, ops[1..];
    OrderedWithin(rest, end, wHi, ops[0].our + ops[0].len, oHi);
    assert WireCovered(ops, wLo) by {
      OrderedWithin(ops, wLo, wHi, oLo, oHi);
    }
    forall i | 0 < i < |ops| ensures !OnWire(ops[i], wLo) {
      assert ops[i] == rest[i - 1];
    }
    forall k | end <= k < wHi ensures WireCovered(rest, k) {
      assert WireCovered(ops, k);
      var j :| 0 <= j < |ops| && OnWire(ops[j], k);
      assert ops[j] == rest[j - 1];
    }
  }

  lemma {:induction false} TilesConcat(
    a: seq<Op>, b: seq<Op>, wLo: nat, wMid: nat, wHi: nat, oLo: nat, oMid: nat, oHi: nat)
    requires Ordered(a, wLo, wMid, oLo, oMid) && Ordered(b, wMid, wHi, oMid, oHi)
    requires wMid < wHi ==> b != []
    ensures Tiles(a + b, wLo, wHi) <==> Tiles(a, wLo, wMid) && Tiles(b, wMid, wHi)
    decreases |a|
  {
    if a == [] {
      assert a + b == b;
      OrderedWithin(b, wMid, wHi, oMid, oHi);
    } else {
      assert (a + b)[1..] == a[1..] + b;
      TilesConcat(a[1..], b, a[0].wire + a[0].len, wMid, wHi, a[0].our + a[0].len, oMid, oHi);
    }
  }

  // ---------- arrays ----------

  lemma {:induction false} StridedGeometry(w: nat, o: nat, ws: nat, os: nat, len: nat, n: nat)
    requires 0 < len <= ws && len <= os
    ensures Ordered(Strided(w, o, ws, os, len, n), w, w + n * ws, o, o + n * os)
    ensures n > 0 ==> (Tiles(Strided(w, o, ws, os, len, n), w, w + n * ws) <==> len == ws)
    decreases n
  {
    if n > 0 {
      StridedGeometry(w + ws, o + os, ws, os, len, n - 1);
      var rest := Strided(w + ws, o + os, ws, os, len, n - 1);
      assert n * ws == ws + (n - 1) * ws && n * os == os + (n - 1) * os;
      assert Strided(w, o, ws, os, len, n)[1..] == rest;
      WidenOrdered(rest, w + ws, w + n * ws, o + os, o + n * os, w + len, o + len);
      if len < ws {
        TilesStart(rest, w + ws, w + len, w + n * ws, o + os, o + n * os);
      }
    }
  }

  lemma WidenOrdered(ops: seq<Op>, wLo: nat, wHi: nat, oLo: nat, oHi: nat, wFrom: nat, oFrom: nat)
    requires Ordered(ops, wLo, wHi, oLo, oHi) && wFrom <= wLo && oFrom <= oLo
    ensures Ordered(ops, wFrom, wHi, oFrom, oHi)
  {
    OrderedWithin(ops, wLo, wHi, oLo, oHi);
  }

  /** A list that starts later than `lo` cannot tile from `lo`. */
  lemma TilesStart(ops: seq<Op>, wLo: nat, lo: nat, wHi: nat, oLo: nat, oHi: nat)
    requires Ordered(ops, wLo, wHi, oLo, oHi) && lo < wLo
    ensures !Tiles(ops, lo, wHi)
  {
    OrderedWithin(ops, wLo, wHi, oLo, oHi);
  }

  lemma ElementSizes(a: nat, b: nat) returns (n: nat)
    requires a > 0 && b > 0
    ensures n == Gcd(a, b) && n > 0
    ensures a == n * (a / n) && b == n * (b / n) && a / n > 0 && b / n > 0
    ensures a <= b <==> a / n <= b / n
  {
    n := Gcd(a, b);
    GcdDivides(a, b);
    QuotientOrder(a, b, n);
  }

  lemma QuotientOrder(a: nat, b: nat, n: nat)
    requires a > 0 && b > 0 && n > 0 && a % n == 0 && b % n == 0
    ensures a == n * (a / n) && b == n * (b / n) && a / n > 0 && b / n > 0
    ensures a <= b <==> a / n <= b / n
  {
    var ka := Quotient(a, n);
    var kb := Quotient(b, n);
    if ka <= kb {
      MultipleOrder(ka, kb, n);
    } else {
      MultipleOrder(kb + 1, ka, n);
    }
  }

  lemma MultipleOrder(x: nat, y: nat, n: nat)
    requires x <= y
    ensures x * n <= y * n
  {
    assert y * n == x * n + (y - x) * n;
  }

  lemma {:induction false} SplitGeometry(w: Region, o: Region)
    requires w.size > 0 && o.size > 0
    ensures Ordered(SplitOps(w, o), w.off, w.off + w.size, o.off, o.off + o.size)
    ensures Tiles(SplitOps(w, o), w.off, w.off + w.size) <==> w.size <= o.size
    ensures SplitOps(w, o) != []
  {
    var n := ElementSizes(w.size, o.size);
    StridedGeometry(w.off, o.off, w.size / n, o.size / n, Min(w.size / n, o.size / n), n);
  }

  lemma PairGeometry(w: Region, o: Region)
    requires w.size > 0 && o.size > 0
    ensures Ordered(PairOps(w, o), w.off, w.off + w.size, o.off, o.off + o.size)
    ensures Tiles(PairOps(w, o), w.off, w.off + w.size) <==> w.size <= o.size
    ensures PairOps(w, o) != []
  {
    SplitGeometry(w, o);
  }

  // ---------- region lists ----------

  predicate NoWider(wire: seq<Region>, fields: seq<Region>)
    requires |wire| == |fields|
  {
    forall i :: 0 <= i < |wire| ==> wire[i].size <= fields[i].size
  }

  lemma {:induction false} PairwiseGeometry(wire: seq<Region>, our: seq<Region>, wLo: nat, wHi: nat, oLo: nat, oHi: nat)
    requires |wire| == |our| && AllPositive(wire) && AllPositive(our)
    requires Chain(wire, wLo, wHi) && Chain(our, oLo, oHi)
    ensures Ordered(PairwiseOps(wire, our), wLo, wHi, oLo, oHi)
    ensures Tiles(PairwiseOps(wire, our), wLo, wHi) <==> NoWider(wire, our)
    ensures wLo < wHi ==> PairwiseOps(wire, our) != []
  {
    if wire == [] {
      ChainSize(our, oLo, oHi);
    } else {
      var w, o := wire[0], our[0];
      PairGeometry(w, o);
      PairwiseGeometry(wire[1..], our[1..], wLo + w.size, wHi, oLo + o.size, oHi);
      OrderedConcat(PairOps(w, o), PairwiseOps(wire[1..], our[1..]), wLo, wLo + w.size, wHi, oLo, oLo + o.size, oHi);
      TilesConcat(PairOps(w, o), PairwiseOps(wire[1..], our[1..]), wLo, wLo + w.size, wHi, oLo, oLo + o.size, oHi);
      if NoWider(wire, our) {
        assert NoWider(wire[1..], our[1..]);
      }
      if w.size <= o.size && NoWider(wire[1..], our[1..]) {
        forall i | 0 <= i < |wire| ensures wire[i].size <= our[i].size {
          assert i > 0 ==> wire[1..][i - 1].size <= our[1..][i - 1].size;
        }
      }
    }
  }

  lemma TwoRegions(rs: seq<Region>, size: nat)
    requires |rs| == 2 && WellFormed(rs, size)
    ensures rs[1].off == rs[0].off + rs[0].size && rs[1].off + rs[1].size == size
  {
    var second := rs[1..];
    assert Chain(second, rs[0].off + rs[0].size, size);
    assert second[0] == rs[1] && second[1..] == [];
    assert Chain(second[1..], second[0].off + second[0].size, size);
  }

  lemma {:induction false} CollapseWellFormed(wire: seq<Region>, ourSize: nat, our: seq<Region>)
    requires WellFormed(our, ourSize) && AllPositive(our)
    ensures WellFormed(Collapse(wire, ourSize, our), ourSize)
  {
    var fields := Collapse(wire, ourSize, our);
    if fields != our {
      var second := fields[1..];
      assert second[1..] == [];
      assert Chain(second, second[0].off, ourSize);
    }
  }

  lemma FixedGeometry(w: Region, o: Region)
    requires 2 <= w.size <= o.size
    ensures Ordered(FixedOps(w, o), w.off, w.off + w.size, o.off, o.off + o.size)
    ensures Tiles(FixedOps(w, o), w.off, w.off + w.size)
  {
    var tail := [Op(w.off + w.size - 2, o.off + o.size - 2, 2)];
    assert tail[1..] == [];
    if w.size > 2 {
      assert FixedOps(w, o)[1..] == tail;
    }
  }

  lemma {:induction false} TailGeometry(wire: seq<Region>, wireSize: nat, fields: seq<Region>, ourSize: nat)
    requires WellFormed(wire, wireSize) && WellFormed(fields, ourSize)
    requires AllPositive(wire) && AllPositive(fields)
    requires TailRule(wire, fields) && wire[0].size <= fields[0].size
    ensures Ordered(TailOps(wire, fields), wire[0].off, wireSize, fields[0].off, ourSize)
    ensures Tiles(TailOps(wire, fields), wire[0].off, wireSize) <==> NoWider(wire, fields)
  {
    TwoRegions(wire, wireSize);
    TwoRegions(fields, ourSize);
    FixedGeometry(wire[0], fields[0]);
    SplitGeometry(wire[1], fields[1]);
    OrderedConcat(FixedOps(wire[0], fields[0]), SplitOps(wire[1], fields[1]),
                  wire[0].off, wire[1].off, wireSize, fields[0].off, fields[1].off, ourSize);
    TilesConcat(FixedOps(wire[0], fields[0]), SplitOps(wire[1], fields[1]),
                wire[0].off, wire[1].off, wireSize, fields[0].off, fields[1].off, ourSize);
  }

  /** With a wider wire part the two pieces of the fixed region overlap on our side. */
  lemma {:induction false} WideTailOverlaps(wire: seq<Region>, fields: seq<Region>)
    requires TailRule(wire, fields) && AllPositive(wire) && AllPositive(fields)
    requires wire[0].size > fields[0].size
    ensures !Disjoint(TailOps(wire, fields))
  {
    var ops := TailOps(wire, fields);
    assert ops[0] == Op(wire[0].off, fields[0].off, wire[0].size - 2);
    assert ops[1] == Op(wire[0].off + wire[0].size - 2, fields[0].off + fields[0].size - 2, 2);
    assert !Apart(ops[0].our, ops[0].len, ops[1].our, ops[1].len);
  }

  // ---------- main results ----------

  /** The generator's documented assumption about the two-region rule fails: the wire's fixed
      part is wider than ours, so there is no padding on our side to skip. */
  predicate WideTail(wire: seq<Region>, ourSize: nat, our: seq<Region>)
    requires AllPositive(our)
  {
    var fields := Collapse(wire, ourSize, our);
    TailRule(wire, fields) && wire[0].size > fields[0].size
  }

  /** Neither whole-payload shortcut applies: regions are paired one by one. */
  predicate PairsRegions(wire: seq<Region>, ourSize: nat, our: seq<Region>) {
    !(wire == [] && our == []) && |wire| == |Collapse(wire, ourSize, our)|
  }

  lemma PairedGeometry(wireSize: nat, wire: seq<Region>, ourSize: nat, our: seq<Region>)
    requires AllPositive(wire) && AllPositive(our)
    requires WellFormed(wire, wireSize) && WellFormed(our, ourSize)
    requires PairsRegions(wire, ourSize, our) && !WideTail(wire, ourSize, our)
    ensures wire != [] && wire[0].off < wireSize
    ensures var fields := Collapse(wire, ourSize, our);
            var ops := CopyOps(wireSize, wire, ourSize, our);
            && Ordered(ops, wire[0].off, wireSize, fields[0].off, ourSize)
            && (Tiles(ops, wire[0].off, wireSize) <==> NoWider(wire, fields))
  {
    var fields := Collapse(wire, ourSize, our);
    CollapseWellFormed(wire, ourSize, our);
    ChainSize(wire, wire[0].off, wireSize);
    if TailRule(wire, fields) {
      TailGeometry(wire, wireSize, fields, ourSize);
    } else {
      PairwiseGeometry(wire, fields, wire[0].off, wireSize, fields[0].off, ourSize);
    }
  }

  /** For all well-formed layouts the operations are in bounds and pairwise disjoint on both
      sides exactly when the two-region rule did not meet a wider wire part. */
  lemma {:induction false} SafeIffNotWideTail(wireSize: nat, wire: seq<Region>, ourSize: nat, our: seq<Region>)
    requires AllPositive(wire) && AllPositive(our)
    requires WellFormed(wire, wireSize) && WellFormed(our, ourSize)
    ensures Safe(CopyOps(wireSize, wire, ourSize, our), wireSize, ourSize) <==> !WideTail(wire, ourSize, our)
  {
    var fields := Collapse(wire, ourSize, our);
    if WideTail(wire, ourSize, our) {
      WideTailOverlaps(wire, fields);
    } else if PairsRegions(wire, ourSize, our) {
      PairedGeometry(wireSize, wire, ourSize, our);
      OrderedIsSafe(CopyOps(wireSize, wire, ourSize, our), wire[0].off, wireSize, fields[0].off, ourSize);
    }
  }

  /** Where the two-region rule meets a wider wire part, its prefix still fits behind the start of
      our fixed part. */
  predicate PrefixFits(wire: seq<Region>, ourSize: nat, our: seq<Region>)
    requires AllPositive(our)
  {
    WideTail(wire, ourSize, our) ==> our[0].off + (wire[0].size - 2) <= ourSize
  }

  /** Even where the two-region rule overlaps itself, the operations stay inside both payloads
      exactly when its prefix fits; the first operation decides. */
  lemma {:induction false} InBoundsIffPrefixFits(wireSize: nat, wire: seq<Region>, ourSize: nat, our: seq<Region>)
    requires AllPositive(wire) && AllPositive(our)
    requires WellFormed(wire, wireSize) && WellFormed(our, ourSize)
    ensures InBounds(CopyOps(wireSize, wire, ourSize, our), wireSize, ourSize) <==> PrefixFits(wire, ourSize, our)
  {
    if WideTail(wire, ourSize, our) {
      var fields := Collapse(wire, ourSize, our);
      assert fields[0].off == our[0].off;
      CollapseWellFormed(wire, ourSize, our);
      TwoRegions(wire, wireSize);
      TwoRegions(fields, ourSize);
      WideTailInBounds(wire, wireSize, fields, ourSize);
    } else {
      SafeIffNotWideTail(wireSize, wire, ourSize, our);
    }
  }

  predicate WireDisjoint(ops: seq<Op>) {
    forall i, j :: 0 <= i < j < |ops| ==> Apart(ops[i].wire, ops[i].len, ops[j].wire, ops[j].len)
  }

  /** Even then no wire byte is written twice, but two wire bytes stand for the same native byte. */
  lemma {:induction false} WideTailSharesByte(wireSize: nat, wire: seq<Region>, ourSize: nat, our: seq<Region>)
    requires AllPositive(wire) && AllPositive(our)
    requires WellFormed(wire, wireSize) && WideTail(wire, ourSize, our)
    ensures var ops := CopyOps(wireSize, wire, ourSize, our);
            var fields := Collapse(wire, ourSize, our);
            && |ops| >= 2 && WireDisjoint(ops)
            && ops[0] == Op(wire[0].off, our[0].off, wire[0].size - 2)
            && ops[1] == Op(wire[0].off + wire[0].size - 2, our[0].off + fields[0].size - 2, 2)
            && wire[0].size > fields[0].size >= 2
  {
    var fields := Collapse(wire, ourSize, our);
    var fixed, split := FixedOps(wire[0], fields[0]), SplitOps(wire[1], fields[1]);
    var ops := CopyOps(wireSize, wire, ourSize, our);
    assert ops == fixed + split && |fixed| == 2;
    TwoRegions(wire, wireSize);
    SplitGeometry(wire[1], fields[1]);
    var oEnd := fields[1].off + fields[1].size;
    OrderedWithin(split, wire[1].off, wireSize, fields[1].off, oEnd);
    OrderedIsSafe(split, wire[1].off, wireSize, fields[1].off, oEnd);
    forall i, j | 0 <= i < j < |ops| ensures Apart(ops[i].wire, ops[i].len, ops[j].wire, ops[j].len) {
      if j >= 2 {
        assert ops[j] == split[j - 2];
        assert i >= 2 ==> ops[i] == split[i - 2];
      }
    }
  }

  lemma WideTailInBounds(wire: seq<Region>, wireSize: nat, fields: seq<Region>, ourSize: nat)
    requires TailRule(wire, fields) && AllPositive(wire) && AllPositive(fields)
    requires wire[0].size > fields[0].size
    requires wire[0].off + wire[0].size == wire[1].off && wire[1].off + wire[1].size == wireSize
    requires fields[0].off + fields[0].size == fields[1].off && fields[1].off + fields[1].size == ourSize
    ensures InBounds(TailOps(wire, fields), wireSize, ourSize)
       <==> fields[0].off + (wire[0].size - 2) <= ourSize
  {
    var fixed, split := FixedOps(wire[0], fields[0]), SplitOps(wire[1], fields[1]);
    SplitGeometry(wire[1], fields[1]);
    OrderedWithin(split, wire[1].off, wireSize, fields[1].off, ourSize);
    var ops := TailOps(wire, fields);
    assert |fixed| == 2 && ops[0] == fixed[0] && ops[1] == fixed[1];
    forall i | 2 <= i < |ops| ensures ops[i] == split[i - 2] {}
  }

  /** Every wire byte can be produced: nothing precedes the first region and no region is wider
      than the one it is paired with. */
  predicate ReachesEveryByte(wire: seq<Region>, ourSize: nat, our: seq<Region>) {
    PairsRegions(wire, ourSize, our) && wire != [] ==>
      wire[0].off == 0 && NoWider(wire, Collapse(wire, ourSize, our))
  }

  /** Safe, non-empty operation lists cover the whole wire payload exactly under that condition. */
  lemma {:induction false} CoversIffReachesEveryByte(wireSize: nat, wire: seq<Region>, ourSize: nat, our: seq<Region>)
    requires AllPositive(wire) && AllPositive(our)
    requires WellFormed(wire, wireSize) && WellFormed(our, ourSize)
    requires !WideTail(wire, ourSize, our) && CopyOps(wireSize, wire, ourSize, our) != []
    ensures CoversWire(CopyOps(wireSize, wire, ourSize, our), 0, wireSize) <==> ReachesEveryByte(wire, ourSize, our)
  {
    var ops := CopyOps(wireSize, wire, ourSize, our);
    var fields := Collapse(wire, ourSize, our);
    if PairsRegions(wire, ourSize, our) {
      PairedGeometry(wireSize, wire, ourSize, our);
      CoversIffTiles(ops, wire[0].off, wireSize, fields[0].off, ourSize);
      OrderedWithin(ops, wire[0].off, wireSize, fields[0].off, ourSize);
      if wire[0].off > 0 {
        assert !WireCovered(ops, 0);
      }
    } else {
      assert ops[0] == Op(0, 0, wireSize);
      forall k | 0 <= k < wireSize ensures WireCovered(ops, k) {
        assert OnWire(ops[0], k);
      }
    }
  }

  // ---------- which bytes belong together ----------

  /** Byte `j` of element `e` on either side, when both regions have `n` elements. */
  predicate AtElement(w: Region, o: Region, n: nat, e: nat, j: nat, wb: nat, ob: nat)
    requires n > 0
  {
    wb == w.off + e * (w.size / n) + j && ob == o.off + e * (o.size / n) + j
  }

  /** Arrays of as many elements as the sizes allow: equal element, equal position inside it,
      as far as the shorter element goes. */
  ghost predicate SameElementByte(w: Region, o: Region, wb: nat, ob: nat)
    requires w.size > 0 && o.size > 0
  {
    var n := Gcd(w.size, o.size);
    exists e: nat, j: nat :: e < n && j < w.size / n && j < o.size / n && AtElement(w, o, n, e, j, wb, ob)
  }

  ghost predicate SameMemberByte(w: Region, o: Region, wb: nat, ob: nat)
    requires w.size > 0 && o.size > 0
  {
    if w.size == o.size then Shifted(w.off, o.off, w.size, wb, ob) else SameElementByte(w, o, wb, ob)
  }

  /** The fixed part: the last two bytes belong together, everything before them counts from the front. */
  predicate SameFixedByte(w: Region, o: Region, wb: nat, ob: nat) {
    || (w.off <= wb && wb + 2 < w.off + w.size && wb - w.off == ob - o.off)
    || (wb < w.off + w.size <= wb + 2 && w.off + w.size - wb == o.off + o.size - ob)
  }

  /** Which native byte each wire byte stands for, by the generator's rules.  Against two wire
      regions our side has two fields: the array begins where our last region does, and everything
      before it is the fixed part.  Two fixed parts of different sizes, both of at least 2 bytes,
      keep their last two bytes together. */
  ghost predicate SameField(wireSize: nat, wire: seq<Region>, ourSize: nat, our: seq<Region>, wb: nat, ob: nat)
    requires AllPositive(wire) && AllPositive(our)
  {
    var last := |our| - 1;
    var fields :=
      if |wire| == 2 && |our| >= 2 && our[0].off < our[last].off < ourSize then
        [Region(our[0].off, our[last].off - our[0].off), Region(our[last].off, ourSize - our[last].off)]
      else
        our;
    if |wire| != |fields| || wire == [] then
      wireSize == ourSize && wb == ob && wb < wireSize
    else if |wire| == 2 && wire[0].size != fields[0].size && wire[0].size >= 2 && fields[0].size >= 2 then
      SameFixedByte(wire[0], fields[0], wb, ob) || SameElementByte(wire[1], fields[1], wb, ob)
    else
      exists r :: 0 <= r < |wire| && SameMemberByte(wire[r], fields[r], wb, ob)
  }

  lemma PairsConcat(a: seq<Op>, b: seq<Op>, wb: nat, ob: nat)
    ensures Pairs(a + b, wb, ob) <==> Pairs(a, wb, ob) || Pairs(b, wb, ob)
  {
    var ops := a + b;
    if Pairs(a, wb, ob) {
      var i :| 0 <= i < |a| && Shifted(a[i].wire, a[i].our, a[i].len, wb, ob);
      assert ops[i] == a[i];
    }
    if Pairs(b, wb, ob) {
      var i :| 0 <= i < |b| && Shifted(b[i].wire, b[i].our, b[i].len, wb, ob);
      assert ops[|a| + i] == b[i];
    }
  }

  lemma PairsSingle(op: Op, wb: nat, ob: nat)
    ensures Pairs([op], wb, ob) <==> Shifted(op.wire, op.our, op.len, wb, ob)
  {
    assert [op][0] == op;
  }

  predicate InStride(w: nat, o: nat, ws: nat, os: nat, len: nat, e: nat, wb: nat, ob: nat) {
    Shifted(w + e * ws, o + e * os, len, wb, ob)
  }

  lemma {:induction false} StridedPairs(w: nat, o: nat, ws: nat, os: nat, len: nat, n: nat, wb: nat, ob: nat)
    ensures Pairs(Strided(w, o, ws, os, len, n), wb, ob)
       <==> exists e: nat :: e < n && InStride(w, o, ws, os, len, e, wb, ob)
    decreases n
  {
    if n > 0 {
      var rest := Strided(w + ws, o + os, ws, os, len, n - 1);
      StridedPairs(w + ws, o + os, ws, os, len, n - 1, wb, ob);
      PairsConcat([Op(w, o, len)], rest, wb, ob);
      PairsSingle(Op(w, o, len), wb, ob);
      assert InStride(w, o, ws, os, len, 0, wb, ob) == Shifted(w, o, len, wb, ob);
      if e: nat :| e < n && InStride(w, o, ws, os, len, e, wb, ob) {
        if e > 0 {
          StrideShift(w, o, ws, os, len, e - 1, wb, ob);
        }
      }
      var w1, o1 := w + ws, o + os;
      if e: nat :| e < n - 1 && InStride(w1, o1, ws, os, len, e, wb, ob) {
        StrideShift(w, o, ws, os, len, e, wb, ob);
      }
    }
  }

  lemma StrideShift(w: nat, o: nat, ws: nat, os: nat, len: nat, e: nat, wb: nat, ob: nat)
    ensures InStride(w + ws, o + os, ws, os, len, e, wb, ob) == InStride(w, o, ws, os, len, e + 1, wb, ob)
  {
    assert (e + 1) * ws == e * ws + ws && (e + 1) * os == e * os + os;
  }

  lemma SplitPairs(w: Region, o: Region, wb: nat, ob: nat)
    requires w.size > 0 && o.size > 0
    ensures Pairs(SplitOps(w, o), wb, ob) <==> SameElementByte(w, o, wb, ob)
  {
    var n := Gcd(w.size, o.size);
    var ws, os := w.size / n, o.size / n;
    StridedPairs(w.off, o.off, ws, os, Min(ws, os), n, wb, ob);
    if exists e: nat :: e < n && InStride(w.off, o.off, ws, os, Min(ws, os), e, wb, ob) {
      var e: nat :| e < n && InStride(w.off, o.off, ws, os, Min(ws, os), e, wb, ob);
      assert AtElement(w, o, n, e, wb - (w.off + e * ws), wb, ob);
    }
    if SameElementByte(w, o, wb, ob) {
      var e: nat, j: nat :| e < n && j < ws && j < os && AtElement(w, o, n, e, j, wb, ob);
      assert InStride(w.off, o.off, ws, os, Min(ws, os), e, wb, ob);
    }
  }

  lemma {:induction false} PairwisePairs(wire: seq<Region>, our: seq<Region>, wb: nat, ob: nat)
    requires |wire| == |our| && AllPositive(wire) && AllPositive(our)
    ensures Pairs(PairwiseOps(wire, our), wb, ob)
       <==> exists r :: 0 <= r < |wire| && SameMemberByte(wire[r], our[r], wb, ob)
    decreases |wire|
  {
    if wire != [] {
      var w, o := wire[0], our[0];
      PairwisePairs(wire[1..], our[1..], wb, ob);
      PairsConcat(PairOps(w, o), PairwiseOps(wire[1..], our[1..]), wb, ob);
      PairsSingle(Op(w.off, o.off, w.size), wb, ob);
      SplitPairs(w, o, wb, ob);
      assert Pairs(PairOps(w, o), wb, ob) <==> SameMemberByte(w, o, wb, ob);
      if r :| 0 <= r < |wire| && SameMemberByte(wire[r], our[r], wb, ob) {
        assert r > 0 ==> SameMemberByte(wire[1..][r - 1], our[1..][r - 1], wb, ob);
      }
      if r :| 0 <= r < |wire[1..]| && SameMemberByte(wire[1..][r], our[1..][r], wb, ob) {
        assert SameMemberByte(wire[r + 1], our[r + 1], wb, ob);
      }
    }
  }

  /** The compiled operations pair exactly the bytes that belong to the same field. */
  lemma {:induction false} PairsExactlySameField(
    wireSize: nat, wire: seq<Region>, ourSize: nat, our: seq<Region>, wb: nat, ob: nat)
    requires AllPositive(wire) && AllPositive(our)
    ensures Pairs(CopyOps(wireSize, wire, ourSize, our), wb, ob) <==> SameField(wireSize, wire, ourSize, our, wb, ob)
  {
    var fields := Collapse(wire, ourSize, our);
    if !PairsRegions(wire, ourSize, our) {
      PairsSingle(Op(0, 0, wireSize), wb, ob);
    } else if TailRule(wire, fields) {
      var w, o := wire[0], fields[0];
      PairsConcat(FixedOps(w, o), SplitOps(wire[1], fields[1]), wb, ob);
      SplitPairs(wire[1], fields[1], wb, ob);
      var prefix, tail := Op(w.off, o.off, w.size - 2), Op(w.off + w.size - 2, o.off + o.size - 2, 2);
      PairsConcat([prefix], [tail], wb, ob);
      PairsSingle(prefix, wb, ob);
      PairsSingle(tail, wb, ob);
    } else {
      PairwisePairs(wire, fields, wb, ob);
    }
  }

  // ---------- the rules, read off the layouts ----------

  lemma {:induction false} LastRegion(rs: seq<Region>, size: nat)
    requires |rs| >= 2 && WellFormed(rs, size)
    ensures rs[0].off < rs[|rs| - 1].off && rs[|rs| - 1].off + rs[|rs| - 1].size == size
    ensures rs[|rs| - 1].size > 0
    decreases |rs|
  {
    var rest := rs[1..];
    assert rest[0] == rs[1] && rest[|rest| - 1] == rs[|rs| - 1];
    assert Chain(rest, rs[0].off + rs[0].size, size);
    if |rs| == 2 {
      assert rest[1..] == [] && Chain(rest[1..], rest[0].off + rest[0].size, size);
    } else {
      LastRegion(rest, size);
    }
  }

  /** When regions are paired one by one, when the two-region rule misfires, when every wire byte is
      reached and when there is nothing to copy, for well-formed layouts. */
  lemma {:induction false} LayoutRules(wireSize: nat, wire: seq<Region>, ourSize: nat, our: seq<Region>)
    requires AllPositive(wire) && AllPositive(our)
    requires WellFormed(wire, wireSize) && WellFormed(our, ourSize)
    ensures PairsRegions(wire, ourSize, our) <==>
              (wire != [] && |wire| == |our|) || (|wire| == 2 && |our| > 2)
    ensures WideTail(wire, ourSize, our) <==>
              |wire| == 2 && |our| >= 2 && wire[0].size > our[|our| - 1].off - our[0].off >= 2
    ensures ReachesEveryByte(wire, ourSize, our) <==>
              if |wire| == 2 && |our| >= 2 then
                && wire[0].off == 0
                && wire[0].size <= our[|our| - 1].off - our[0].off && wire[1].size <= our[|our| - 1].size
              else if wire != [] && |wire| == |our| then
                wire[0].off == 0 && forall i :: 0 <= i < |wire| ==> wire[i].size <= our[i].size
              else
                true
    ensures CopyOps(wireSize, wire, ourSize, our) == [] <==>
              if (wire != [] && |wire| == |our|) || (|wire| == 2 && |our| > 2) then false
              else wireSize != ourSize || (wire == [] && our == [] && wireSize == 0)
  {
    var fields := Collapse(wire, ourSize, our);
    if |our| >= 2 {
      LastRegion(our, ourSize);
    }
    if |wire| == 2 && |our| >= 2 {
      assert fields[0].size == our[|our| - 1].off - our[0].off && fields[1].size == our[|our| - 1].size;
    } else {
      assert fields == our;
    }
    if PairsRegions(wire, ourSize, our) {
      PairedOpsNonEmpty(wireSize, wire, ourSize, our);
    }
  }

  lemma PairedOpsNonEmpty(wireSize: nat, wire: seq<Region>, ourSize: nat, our: seq<Region>)
    requires AllPositive(wire) && AllPositive(our) && PairsRegions(wire, ourSize, our)
    ensures CopyOps(wireSize, wire, ourSize, our) != []
  {
    var fields := Collapse(wire, ourSize, our);
    assert wire != [];
    if !TailRule(wire, fields) {
      PairGeometry(wire[0], fields[0]);
    }
  }

  lemma {:induction false} PairsWithin(ops: seq<Op>, wLo: nat, wHi: nat, oLo: nat, oHi: nat, wb: nat, ob: nat)
    requires Ordered(ops, wLo, wHi, oLo, oHi) && Pairs(ops, wb, ob)
    ensures wLo <= wb < wHi && oLo <= ob < oHi
  {
    OrderedWithin(ops, wLo, wHi, oLo, oHi);
    var i :| 0 <= i < |ops| && Shifted(ops[i].wire, ops[i].our, ops[i].len, wb, ob);
  }

  lemma ConsecutiveStayApart(
    a: seq<Op>, b: seq<Op>, wLo: nat, wMid: nat, wHi: nat, oLo: nat, oMid: nat, oHi: nat, wb: nat, ob: nat)
    requires Ordered(a, wLo, wMid, oLo, oMid) && Ordered(b, wMid, wHi, oMid, oHi) && Pairs(a + b, wb, ob)
    ensures wb < wMid <==> ob < oMid
  {
    PairsConcat(a, b, wb, ob);
    if Pairs(a, wb, ob) {
      PairsWithin(a, wLo, wMid, oLo, oMid, wb, ob);
    } else {
      PairsWithin(b, wMid, wHi, oMid, oHi, wb, ob);
    }
  }

  predicate Adjacent(rs: seq<Region>) {
    |rs| == 2 && AllPositive(rs) && rs[0].off + rs[0].size == rs[1].off
  }

  lemma TailStaysApart(wire: seq<Region>, fields: seq<Region>, wb: nat, ob: nat)
    requires Adjacent(wire) && Adjacent(fields) && TailRule(wire, fields) && wire[0].size <= fields[0].size
    requires Pairs(TailOps(wire, fields), wb, ob)
    ensures wb < wire[1].off <==> ob < fields[1].off
  {
    var w, o, v, p := wire[0], fields[0], wire[1], fields[1];
    FixedGeometry(w, o);
    SplitGeometry(v, p);
    ConsecutiveStayApart(FixedOps(w, o), SplitOps(v, p), w.off, v.off, v.off + v.size,
                         o.off, p.off, p.off + p.size, wb, ob);
  }

  lemma PairStaysApart(wire: seq<Region>, fields: seq<Region>, wb: nat, ob: nat)
    requires Adjacent(wire) && Adjacent(fields) && Pairs(PairwiseOps(wire, fields), wb, ob)
    ensures wb < wire[1].off <==> ob < fields[1].off
  {
    var w, o, v, p := wire[0], fields[0], wire[1], fields[1];
    TwoPairs(wire, fields);
    PairGeometry(w, o);
    PairGeometry(v, p);
    ConsecutiveStayApart(PairOps(w, o), PairOps(v, p), w.off, v.off, v.off + v.size,
                         o.off, p.off, p.off + p.size, wb, ob);
  }

  /** Against two wire regions the fixed part and the array stay apart: a byte of the wire's array
      is exchanged with a byte from our last region on, and a byte of its fixed part with one
      before it, as long as the wire's fixed part is not the wider one. */
  lemma {:induction false} FixedAndArrayStayApart(
    wireSize: nat, wire: seq<Region>, ourSize: nat, our: seq<Region>, wb: nat, ob: nat)
    requires AllPositive(wire) && AllPositive(our)
    requires WellFormed(wire, wireSize) && WellFormed(our, ourSize)
    requires |wire| == 2 && |our| >= 2 && wire[0].size <= our[|our| - 1].off - our[0].off
    requires Pairs(CopyOps(wireSize, wire, ourSize, our), wb, ob)
    ensures wb < wire[1].off <==> ob < our[|our| - 1].off
  {
    LastRegion(our, ourSize);
    TwoRegions(wire, wireSize);
    var fields := Collapse(wire, ourSize, our);
    if TailRule(wire, fields) {
      TailStaysApart(wire, fields, wb, ob);
    } else {
      PairStaysApart(wire, fields, wb, ob);
    }
  }

  lemma TwoPairs(wire: seq<Region>, fields: seq<Region>)
    requires |wire| == |fields| == 2 && AllPositive(wire) && AllPositive(fields)
    ensures PairwiseOps(wire, fields) == PairOps(wire[0], fields[0]) + PairOps(wire[1], fields[1])
  {
    assert PairwiseOps(wire[1..][1..], fields[1..][1..]) == [];
    assert wire[1..][0] == wire[1] && fields[1..][0] == fields[1];
  }

  lemma {:induction false} StridedAt(wire: nat, our: nat, ws: nat, os: nat, len: nat, n: nat, i: nat)
    requires i < n
    ensures |Strided(wire, our, ws, os, len, n)| == n
    ensures Strided(wire, our, ws, os, len, n)[i] == Op(wire + i * ws, our + i * os, len)
    decreases n
  {
    if n > 1 {
      StridedAt(wire + ws, our + os, ws, os, len, n - 1, if i > 0 then i - 1 else 0);
    }
    if i > 0 {
      assert i * ws == (i - 1) * ws + ws && i * os == (i - 1) * os + os;
    } else {
      assert n == 1 ==> Strided(wire + ws, our + os, ws, os, len, 0) == [];
    }
  }

  lemma LoginGcd()
    ensures Gcd(730, 770) == 10
  {
    assert Gcd(730, 770) == Gcd(770, 730) == Gcd(730, 40) == Gcd(40, 10) == Gcd(10, 0) == 10;
  }

  /** The login answer: 65 fixed bytes and ten servers of 73 bytes on the wire, 69 and ten of 77 on
      our side.  63 bytes from the front, the result code's two bytes, and 73 bytes of each server. */
  lemma {:induction false} LoginAnswerExample(our: seq<Region>)
    requires AllPositive(our) && |our| >= 2 && our[0].off == 0 && our[|our| - 1].off == 69
    ensures AllPositive([Region(0, 65), Region(65, 730)])
    ensures var ops := CopyOps(795, [Region(0, 65), Region(65, 730)], 839, our);
            && |ops| == 12 && ops[0] == Op(0, 0, 63) && ops[1] == Op(63, 67, 2)
            && forall i :: 0 <= i < 10 ==> ops[2 + i] == Op(65 + 73 * i, 69 + 77 * i, 73)
  {
    var wire := [Region(0, 65), Region(65, 730)];
    var fields := Collapse(wire, 839, our);
    assert fields == [Region(0, 69), Region(69, 770)];
    LoginGcd();
    var split := SplitOps(wire[1], fields[1]);
    forall i | 0 <= i < 10 ensures |split| == 10 && split[i] == Op(65 + 73 * i, 69 + 77 * i, 73) {
      StridedAt(65, 69, 73, 77, 73, 10, i);
    }
    assert |split| == 10 by { StridedAt(65, 69, 73, 77, 73, 10, 0); }
    var ops := CopyOps(795, wire, 839, our);
    assert ops == [Op(0, 0, 63), Op(63, 67, 2)] + split;
  }
}
