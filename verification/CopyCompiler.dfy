/**
 Compiling two layouts of one packet into copy operations (tools/gen_packet_wire.py).

 An operation copies `len` bytes between offset `wire` of the wire payload and offset `our` of
 the native payload.  The same list drives encoding and decoding.
 */
module CopyCompiler {
  import opened LayoutDump
  import opened Sequences

  datatype Op = Op(wire: nat, our: nat, len: nat)

  // ---------- greatest common divisor ----------

  function Gcd(a: nat, b: nat): (g: nat)
    ensures a > 0 || b > 0 ==> g > 0
    decreases b
  {
    if b == 0 then a else Gcd(b, a % b)
  }

  method ComputeGcd(x: nat, y: nat) returns (g: nat)
    ensures g == Gcd(x, y)
  {
    var a, b := x, y;
    while b != 0
      invariant Gcd(a, b) == Gcd(x, y)
      decreases b
    {
      a, b := b, a % b;
    }
    g := a;
  }

  lemma {:induction false} MultipleAtLeast(k: nat, d: nat)
    requires k > 0
    ensures k * d >= d
  {
    assert k * d == (k - 1) * d + d;
  }

  lemma MultipleMod(k: nat, d: nat)
    requires d > 0
    ensures (k * d) % d == 0
  {
    var q, r := k * d / d, k * d % d;
    assert k * d == q * d + r;
    assert (k - q) * d == k * d - q * d == r;
    assert (q - k) * d == -r;
    if k > q {
      MultipleAtLeast(k - q, d);
    } else if q > k {
      MultipleAtLeast(q - k, d);
    }
  }

  lemma Quotient(a: nat, d: nat) returns (k: nat)
    requires d > 0 && a % d == 0
    ensures a == k * d && k == a / d
  {
    k := a / d;
  }

  /** `q * b + r` is divisible by whatever divides `b` and `r`. */
  lemma DividesCombination(q: nat, b: nat, r: nat, d: nat)
    requires d > 0 && b % d == 0 && r % d == 0
    ensures (q * b + r) % d == 0
  {
    var kb := Quotient(b, d);
    var kr := Quotient(r, d);
    assert q * b + r == (q * kb + kr) * d;
    MultipleMod(q * kb + kr, d);
  }

  lemma {:induction false} GcdDivides(a: nat, b: nat)
    requires a > 0 || b > 0
    ensures a % Gcd(a, b) == 0 && b % Gcd(a, b) == 0
    decreases b
  {
    if b == 0 {
      assert 1 * a == a;
      MultipleMod(1, a);
    } else {
      var g := Gcd(b, a % b);
      GcdDivides(b, a % b);
      DividesCombination(a / b, b, a % b, g);
      assert a / b * b + a % b == a;
    }
  }

  lemma NonNegativeFactor(k: int, d: nat)
    requires k * d >= 0 && d > 0
    ensures k >= 0
  {
    if k < 0 {
      MultipleAtLeast(-k, d);
    }
  }

  /** Every common divisor divides the result. */
  lemma {:induction false} GcdGreatest(a: nat, b: nat, d: nat)
    requires d > 0 && a % d == 0 && b % d == 0
    ensures Gcd(a, b) % d == 0
    decreases b
  {
    if b > 0 {
      var ka := Quotient(a, d);
      var kb := Quotient(b, d);
      var q := a / b;
      assert q * kb * d == q * b;
      assert a % b == a - q * b == ka * d - q * kb * d == (ka - q * kb) * d;
      NonNegativeFactor(ka - q * kb, d);
      MultipleMod(ka - q * kb, d);
      GcdGreatest(b, a % b, d);
    }
  }

  // ---------- the compiler ----------

  function Min(a: nat, b: nat): nat {
    if a <= b then a else b
  }

  /** `n` copies of `len` bytes, advancing by one element on either side each time. */
  function Strided(wire: nat, our: nat, wireStep: nat, ourStep: nat, len: nat, n: nat): seq<Op>
    decreases n
  {
    if n == 0 then
      []
    else
      [Op(wire, our, len)] + Strided(wire + wireStep, our + ourStep, wireStep, ourStep, len, n - 1)
  }

  /** Two regions of different sizes are arrays of gcd-many elements. */
  function SplitOps(w: Region, o: Region): seq<Op>
    requires w.size > 0 && o.size > 0
  {
    var n := Gcd(w.size, o.size);
    Strided(w.off, o.off, w.size / n, o.size / n, Min(w.size / n, o.size / n), n)
  }

  function PairOps(w: Region, o: Region): seq<Op>
    requires w.size > 0 && o.size > 0
  {
    if w.size == o.size then [Op(w.off, o.off, w.size)] else SplitOps(w, o)
  }

  function PairwiseOps(wire: seq<Region>, our: seq<Region>): seq<Op>
    requires |wire| == |our| && AllPositive(wire) && AllPositive(our)
  {
    if wire == [] then [] else PairOps(wire[0], our[0]) + PairwiseOps(wire[1..], our[1..])
  }

  /** Against two wire regions, our regions are merged into a fixed part and the last member. */
  function Collapse(wire: seq<Region>, ourSize: nat, our: seq<Region>): (fields: seq<Region>)
    ensures AllPositive(our) ==> AllPositive(fields)
  {
    if |wire| == 2 && |our| >= 2 then
      var fixedOff, arrayOff := our[0].off, our[|our| - 1].off;
      if arrayOff > fixedOff && ourSize > arrayOff then
        [Region(fixedOff, arrayOff - fixedOff), Region(arrayOff, ourSize - arrayOff)]
      else
        our
    else
      our
  }

  /** Two regions a side whose fixed parts differ: the last two fixed bytes travel separately. */
  predicate TailRule(wire: seq<Region>, fields: seq<Region>) {
    |wire| == 2 && |fields| == 2 && wire[0].size != fields[0].size && wire[0].size >= 2 && fields[0].size >= 2
  }

  function TailOps(wire: seq<Region>, fields: seq<Region>): seq<Op>
    requires TailRule(wire, fields) && AllPositive(wire) && AllPositive(fields)
  {
    FixedOps(wire[0], fields[0]) + SplitOps(wire[1], fields[1])
  }

  function FixedOps(w: Region, o: Region): seq<Op>
    requires w.size >= 2 && o.size >= 2
  {
    var tail := [Op(w.off + w.size - 2, o.off + o.size - 2, 2)];
    if w.size > 2 then [Op(w.off, o.off, w.size - 2)] + tail else tail
  }

  function WholeOps(wireSize: nat, ourSize: nat): seq<Op> {
    if wireSize == ourSize then [Op(0, 0, wireSize)] else []
  }

  function CopyOps(wireSize: nat, wire: seq<Region>, ourSize: nat, our: seq<Region>): seq<Op>
    requires AllPositive(wire) && AllPositive(our)
  {
    var fields := Collapse(wire, ourSize, our);
    if wire == [] && our == [] then
      if wireSize > 0 then WholeOps(wireSize, ourSize) else []
    else if |wire| != |fields| then
      WholeOps(wireSize, ourSize)
    else if TailRule(wire, fields) then
      TailOps(wire, fields)
    else
      PairwiseOps(wire, fields)
  }

  lemma StridedStep(wire: nat, our: nat, wireStep: nat, ourStep: nat, len: nat, n: nat, i: nat)
    requires i < n
    ensures Strided(wire + i * wireStep, our + i * ourStep, wireStep, ourStep, len, n - i)
         == [Op(wire + i * wireStep, our + i * ourStep, len)]
          + Strided(wire + (i + 1) * wireStep, our + (i + 1) * ourStep, wireStep, ourStep, len, n - (i + 1))
  {
    assert (i + 1) * wireStep == i * wireStep + wireStep;
    assert (i + 1) * ourStep == i * ourStep + ourStep;
  }

  /** The loop that appends the operations of one array. */
  method AppendStrided(ops: seq<Op>, w: Region, o: Region) returns (more: seq<Op>)
    requires w.size > 0 && o.size > 0
    ensures more == ops + SplitOps(w, o) && |more| > |ops|
  {
    var n := ComputeGcd(w.size, o.size);
    var wireElement, ourElement := w.size / n, o.size / n;
    var len := if wireElement <= ourElement then wireElement else ourElement;
    more := AppendElements(ops, w.off, o.off, wireElement, ourElement, len, n);
  }

  method AppendElements(ops: seq<Op>, wire: nat, our: nat, wireElement: nat, ourElement: nat, len: nat, n: nat)
    returns (more: seq<Op>)
    ensures more == ops + Strided(wire, our, wireElement, ourElement, len, n)
  {
    more := ops;
    ghost var all := Strided(wire, our, wireElement, ourElement, len, n);
    ghost var rest := all;
    for i := 0 to n
      invariant rest == Strided(wire + i * wireElement, our + i * ourElement, wireElement, ourElement, len, n - i)
      invariant more + rest == ops + all
    {
      StridedStep(wire, our, wireElement, ourElement, len, n, i);
      assert rest == [rest[0]] + rest[1..];
      rest := rest[1..];
      more := more + [Op(wire + i * wireElement, our + i * ourElement, len)];
    }
  }

  lemma PairwiseStep(wire: seq<Region>, fields: seq<Region>, r: nat)
    requires |wire| == |fields| && AllPositive(wire) && AllPositive(fields) && r < |wire|
    ensures PairwiseOps(wire[r..], fields[r..])
         == PairOps(wire[r], fields[r]) + PairwiseOps(wire[r + 1..], fields[r + 1..])
  {
    assert wire[r..][1..] == wire[r + 1..] && fields[r..][1..] == fields[r + 1..];
  }

  method AppendPairwise(wire: seq<Region>, fields: seq<Region>) returns (ops: seq<Op>)
    requires |wire| == |fields| && AllPositive(wire) && AllPositive(fields)
    ensures ops == PairwiseOps(wire, fields) && |ops| >= |wire|
  {
    ops := [];
    ghost var rest := PairwiseOps(wire, fields);
    assert wire[0..] == wire && fields[0..] == fields;
    for r := 0 to |wire|
      invariant rest == PairwiseOps(wire[r..], fields[r..])
      invariant ops + rest == PairwiseOps(wire, fields) && |ops| >= r
    {
      PairwiseStep(wire, fields, r);
      rest := PairwiseOps(wire[r + 1..], fields[r + 1..]);
      Assoc(ops, PairOps(wire[r], fields[r]), rest);
      if wire[r].size == fields[r].size {
        ops := ops + [Op(wire[r].off, fields[r].off, wire[r].size)];
      } else {
        ops := AppendStrided(ops, wire[r], fields[r]);
      }
    }
  }

  /** The fixed part as a prefix and the two bytes of its last field. */
  method SplitFixed(w: Region, o: Region) returns (ops: seq<Op>)
    requires w.size >= 2 && o.size >= 2
    ensures ops == FixedOps(w, o)
  {
    ops := [];
    var prefix := w.size - 2;
    if prefix > 0 {
      ops := ops + [Op(w.off, o.off, prefix)];
    }
    ops := ops + [Op(w.off + prefix, o.off + o.size - 2, 2)];
  }

  method ComputeCopyOps(wireSize: nat, wire: seq<Region>, ourSize: nat, our: seq<Region>) returns (ops: seq<Op>)
    requires AllPositive(wire) && AllPositive(our)
    ensures ops == CopyOps(wireSize, wire, ourSize, our)
  {
    ops := [];
    if wire == [] && our == [] {
      if wireSize == ourSize && wireSize > 0 {
        ops := [Op(0, 0, wireSize)];
      }
      return;
    }
    var fields := our;
    if |wire| == 2 && |our| >= 2 {
      var fixedOff, arrayOff := our[0].off, our[|our| - 1].off;
      if arrayOff > fixedOff && ourSize > arrayOff {
        fields := [Region(fixedOff, arrayOff - fixedOff), Region(arrayOff, ourSize - arrayOff)];
      }
    }
    if |wire| != |fields| {
      if wireSize == ourSize {
        ops := [Op(0, 0, wireSize)];
      }
      return;
    }
    if |wire| == 2 && |fields| == 2 {
      var w, o := wire[0], fields[0];
      if w.size != o.size && w.size >= 2 && o.size >= 2 {
        ops := SplitFixed(w, o);
        ops := AppendStrided(ops, wire[1], fields[1]);
        return;
      }
    }
    ops := AppendPairwise(wire, fields);
  }
}
