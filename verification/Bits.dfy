/** Octets as bits, least significant first: packing, HDLC bit stuffing and NRZI
    (sections 3.6 and 3.7 of AX.25 v2.2). A bit 1 is `true`. */
module Bits {
  import opened Common

  // ---- octets and bits ------------------------------------------------------------------------

  /** The `n` low bits of `b`, lowest first. */
  function ToBits(b: byte, n: nat): (r: seq<bool>)
    ensures |r| == n
    decreases n, b
  {
    if n == 0 then [] else [b & 1 != 0] + ToBits(b >> 1, n - 1)
  }

  function BytesToBits(data: Bytes): (r: seq<bool>)
    ensures |r| == 8 * |data|
  {
    if data == [] then [] else ToBits(data[0], 8) + BytesToBits(data[1..])
  }

  /** At most eight bits as one octet. */
  function Pack(bits: seq<bool>): byte {
    if bits == [] then 0 else Bit(bits[0]) | (Pack(bits[1..]) << 1)
  }

  /** Bits packed into octets; the last octet is filled up with zeros. */
  function BitsToBytes(bits: seq<bool>): Bytes {
    if bits == [] then []
    else if |bits| < 8 then [Pack(bits)]
    else [Pack(bits[..8])] + BitsToBytes(bits[8..])
  }

  function Zeros(n: nat): seq<bool> { seq(n, i => false) }

  /** The lowest bit of an octet comes first. */
  lemma {:induction false} BitAt(data: Bytes, i: nat, k: nat)
    requires i < |data| && k < 8
    ensures BytesToBits(data)[8 * i + k] == ((data[i] >> k) & 1 != 0)
    decreases i
  {
    if i == 0 {
      ToBitsAt(data[0], 8, k);
    } else {
      BitAt(data[1..], i - 1, k);
    }
  }

  lemma ShiftOneMore(b: byte, k: nat)
    requires 0 < k < 8
    ensures (b >> 1) >> (k - 1) == b >> k
  {
    if k == 1 {}
    else if k == 2 {}
    else if k == 3 {}
    else if k == 4 {}
    else if k == 5 {}
    else if k == 6 {}
    else {}
  }

  /** Bit `k` of an octet is the lowest one after shifting by `k`. */
  lemma {:induction false} ToBitsAt(b: byte, n: nat, k: nat)
    requires k < n <= 8
    ensures ToBits(b, n)[k] == ((b >> k) & 1 != 0)
    decreases n
  {
    if k == 0 {
      assert b >> 0 == b;
    } else {
      ToBitsAt(b >> 1, n - 1, k - 1);
      ShiftOneMore(b, k);
    }
  }

  /** `b` has no bit set from bit `n` on. */
  predicate Fits(b: byte, n: nat) {
    if n == 0 then b == 0 else Fits(b >> 1, n - 1)
  }

  lemma AllFit(b: byte)
    ensures Fits(b, 8)
  {
    var b1 := b >> 1;
    var b2 := b1 >> 1;
    var b3 := b2 >> 1;
    var b4 := b3 >> 1;
    var b5 := b4 >> 1;
    var b6 := b5 >> 1;
    var b7 := b6 >> 1;
    assert b7 >> 1 == 0;
    assert Fits(b7, 1);
    assert Fits(b6, 2);
    assert Fits(b5, 3);
    assert Fits(b4, 4);
    assert Fits(b3, 5);
    assert Fits(b2, 6);
    assert Fits(b1, 7);
  }

  lemma {:induction false} PackToBits(b: byte, n: nat)
    requires Fits(b, n)
    ensures Pack(ToBits(b, n)) == b
    decreases n
  {
    if n > 0 {
      PackToBits(b >> 1, n - 1);
      assert ToBits(b, n)[1..] == ToBits(b >> 1, n - 1);
    }
  }

  lemma PackOctet(b: byte)
    ensures Pack(ToBits(b, 8)) == b
  {
    AllFit(b);
    PackToBits(b, 8);
  }

  lemma {:induction false} PackZeros(n: nat)
    ensures Pack(Zeros(n)) == 0
  {
    if n > 0 {
      PackZeros(n - 1);
      assert Zeros(n)[1..] == Zeros(n - 1);
    }
  }

  /** Unpacking and packing returns the octets; fewer than eight extra zeros add one zero octet. */
  lemma {:induction false} PackRoundTrip(data: Bytes, k: nat)
    requires k < 8
    ensures BitsToBytes(BytesToBits(data) + Zeros(k)) == if k == 0 then data else data + [0]
    decreases |data|
  {
    var bits := BytesToBits(data) + Zeros(k);
    if data == [] {
      assert bits == Zeros(k);
      PackZeros(k);
    } else {
      PackOctet(data[0]);
      assert bits[..8] == ToBits(data[0], 8);
      assert bits[8..] == BytesToBits(data[1..]) + Zeros(k);
      PackRoundTrip(data[1..], k);
      assert data == [data[0]] + data[1..];
    }
  }

  lemma PackUnpack(data: Bytes)
    ensures BitsToBytes(BytesToBits(data)) == data
  {
    PackRoundTrip(data, 0);
    assert BytesToBits(data) + Zeros(0) == BytesToBits(data);
  }

  lemma PackShift(b: bool, p: byte)
    requires p & 0x80 == 0
    ensures ((Bit(b) | (p << 1)) & 1 != 0) == b && (Bit(b) | (p << 1)) >> 1 == p
  {}

  lemma FitsTop(p: byte, n: nat)
    requires Fits(p, n) && n < 8
    ensures p & 0x80 == 0
    decreases n
  {
    FitsUp(p, n);
    FitsSeven(p);
  }

  lemma {:induction false} FitsUp(p: byte, n: nat)
    requires Fits(p, n) && n <= 7
    ensures Fits(p, 7)
    decreases 7 - n
  {
    if n < 7 {
      FitsNext(p, n);
      FitsUp(p, n + 1);
    }
  }

  lemma {:induction false} FitsNext(p: byte, n: nat)
    requires Fits(p, n)
    ensures Fits(p, n + 1)
    decreases n
  {
    if n == 0 {
      assert p >> 1 == 0;
    } else {
      FitsNext(p >> 1, n - 1);
    }
  }

  lemma FitsSeven(p: byte)
    requires Fits(p, 7)
    ensures p & 0x80 == 0
  {
    var p1 := p >> 1;
    var p2 := p1 >> 1;
    var p3 := p2 >> 1;
    var p4 := p3 >> 1;
    var p5 := p4 >> 1;
    var p6 := p5 >> 1;
    assert Fits(p1, 6);
    assert Fits(p2, 5);
    assert Fits(p3, 4);
    assert Fits(p4, 3);
    assert Fits(p5, 2);
    assert Fits(p6, 1);
    assert Fits(p6 >> 1, 0);
    assert p6 >> 1 == 0;
  }

  lemma {:induction false} UnpackPack(bits: seq<bool>)
    requires |bits| <= 8
    ensures ToBits(Pack(bits), |bits|) == bits
    decreases |bits|
  {
    if bits != [] {
      UnpackPack(bits[1..]);
      PackHead(bits);
      assert bits == [bits[0]] + bits[1..];
    }
  }

  lemma {:induction false} PackFits(bits: seq<bool>)
    requires |bits| <= 8
    ensures Fits(Pack(bits), |bits|)
    decreases |bits|, 1
  {
    if bits != [] {
      PackFits(bits[1..]);
      PackHead(bits);
    }
  }

  lemma PackHead(bits: seq<bool>)
    requires 0 < |bits| <= 8
    ensures (Pack(bits) & 1 != 0) == bits[0] && Pack(bits) >> 1 == Pack(bits[1..])
    decreases |bits|, 0
  {
    PackFits(bits[1..]);
    FitsTop(Pack(bits[1..]), |bits| - 1);
    PackShift(bits[0], Pack(bits[1..]));
  }

  lemma {:induction false} BytesToBitsConcat(xs: Bytes, ys: Bytes)
    ensures BytesToBits(xs + ys) == BytesToBits(xs) + BytesToBits(ys)
    decreases |xs|
  {
    if xs == [] {
      assert xs + ys == ys;
    } else {
      assert (xs + ys)[1..] == xs[1..] + ys;
      BytesToBitsConcat(xs[1..], ys);
    }
  }

  lemma OneOctet(b: byte)
    ensures BytesToBits([b]) == ToBits(b, 8)
  {
    assert [b][1..] == [];
    assert BytesToBits([]) == [];
    assert BytesToBits([b]) == ToBits(b, 8) + BytesToBits([]);
  }

  // ---- bit stuffing -------------------------------------------------------------------------------

  /** `bits` with a 0 after every fifth 1 in a row; `ones` 1s came just before. */
  function Stuff(bits: seq<bool>, ones: nat): (r: seq<bool>)
    requires ones < 5
    ensures |r| >= |bits|
  {
    if bits == [] then []
    else if !bits[0] then [false] + Stuff(bits[1..], 0)
    else if ones == 4 then [true, false] + Stuff(bits[1..], 0)
    else [true] + Stuff(bits[1..], ones + 1)
  }

  /** The inverse: after five 1s the next bit must be a 0 and is dropped. `ones == 5` is the
      state in which it is still to come. */
  function Unstuff(bits: seq<bool>, ones: nat): Option<seq<bool>>
    requires ones <= 5
  {
    if bits == [] then
      if ones == 5 then None else Some([])
    else if ones == 5 then
      if bits[0] then None else Unstuff(bits[1..], 0)
    else Before([bits[0]], Unstuff(bits[1..], if bits[0] then ones + 1 else 0))
  }

  function Before(xs: seq<bool>, ys: Option<seq<bool>>): Option<seq<bool>> {
    if ys.None? then None else Some(xs + ys.value)
  }

  lemma BeforeBefore(xs: seq<bool>, ys: seq<bool>, zs: Option<seq<bool>>)
    ensures Before(xs, Before(ys, zs)) == Before(xs + ys, zs)
  {
    if zs.Some? { assert xs + (ys + zs.value) == xs + ys + zs.value; }
  }

  lemma UnstuffFive(y: seq<bool>)
    ensures Unstuff([true, false] + y, 4) == Before([true], Unstuff(y, 0))
  {
    var z := [true, false] + y;
    assert z[1..] == [false] + y;
    assert z[1..][1..] == y;
    assert Unstuff(z[1..], 5) == Unstuff(y, 0);
  }

  lemma UnstuffOther(b: bool, y: seq<bool>, ones: nat)
    requires ones < 5 && !(b && ones == 4)
    ensures Unstuff([b] + y, ones) == Before([b], Unstuff(y, if b then ones + 1 else 0))
  {
    assert ([b] + y)[1..] == y;
  }

  /** How many 1s in a row a stuffed stretch ends with. */
  function EndOnes(bits: seq<bool>, ones: nat): (r: nat)
    requires ones < 5
    ensures r < 5
  {
    if bits == [] then ones
    else EndOnes(bits[1..], if !bits[0] || ones == 4 then 0 else ones + 1)
  }

  /** How many 0s stuffing puts in. */
  function StuffedZeros(bits: seq<bool>): nat {
    |Stuff(bits, 0)| - |bits|
  }

  /** Unstuffing what was stuffed returns it, whatever valid tail follows. */
  lemma {:induction false} UnstuffStuffTail(bits: seq<bool>, ones: nat, tail: seq<bool>)
    requires ones < 5
    ensures Unstuff(Stuff(bits, ones) + tail, ones) == Before(bits, Unstuff(tail, EndOnes(bits, ones)))
    decreases |bits|
  {
    var y := Stuff(bits, ones) + tail;
    if bits == [] {
      assert y == tail;
      var rest := Unstuff(tail, ones);
      if rest.Some? { assert bits + rest.value == rest.value; }
    } else {
      var next := if !bits[0] || ones == 4 then 0 else ones + 1;
      var y1 := Stuff(bits[1..], next) + tail;
      UnstuffStuffTail(bits[1..], next, tail);
      BeforeBefore([bits[0]], bits[1..], Unstuff(tail, EndOnes(bits, ones)));
      assert bits == [bits[0]] + bits[1..];
      if bits[0] && ones == 4 {
        assert y == [true, false] + y1;
        UnstuffFive(y1);
      } else {
        assert y == [bits[0]] + y1;
        UnstuffOther(bits[0], y1, ones);
      }
    }
  }

  lemma UnstuffStuff(bits: seq<bool>)
    ensures Unstuff(Stuff(bits, 0), 0) == Some(bits)
  {
    UnstuffStuffTail(bits, 0, []);
    assert Stuff(bits, 0) + [] == Stuff(bits, 0);
    assert Unstuff([], EndOnes(bits, 0)) == Some([]);
    assert bits + [] == bits;
  }

  /** Nothing else unstuffs: what unstuffs to `x` is `x` stuffed, but for a closing run of five 1s. */
  lemma {:induction false} UnstuffOnlyStuffed(y: seq<bool>, ones: nat)
    requires ones < 5
    ensures Unstuff(y, ones).Some? ==> Stuff(Unstuff(y, ones).value, ones) == y
    decreases |y|
  {
    if y != [] && Unstuff(y, ones).Some? {
      var x := Unstuff(y, ones).value;
      assert x[0] == y[0];
      if y[0] && ones == 4 {
        assert Unstuff(y[1..], 5).Some?;
        assert y[1..] != [] && !y[1..][0] && y[1..][1..] == y[2..];
        assert x[1..] == Unstuff(y[2..], 0).value;
        UnstuffOnlyStuffed(y[2..], 0);
        assert y == [true, false] + y[2..];
      } else {
        var next := if y[0] then ones + 1 else 0;
        assert x[1..] == Unstuff(y[1..], next).value;
        UnstuffOnlyStuffed(y[1..], next);
        assert y == [y[0]] + y[1..];
      }
    }
  }

  lemma {:induction false} UnstuffZeros(n: nat, ones: nat)
    requires ones < 5
    ensures Unstuff(Zeros(n), ones) == Some(Zeros(n))
    decreases n
  {
    if n > 0 {
      assert Zeros(n)[1..] == Zeros(n - 1);
      UnstuffZeros(n - 1, 0);
      assert Zeros(n) == [false] + Zeros(n - 1);
    } else {
      assert Zeros(0) == [];
    }
  }

  /** No six 1s in a row, `ones` of them just before. */
  predicate RunsOk(bits: seq<bool>, ones: nat) {
    bits == [] || (if bits[0] then ones < 5 && RunsOk(bits[1..], ones + 1) else RunsOk(bits[1..], 0))
  }

  lemma {:induction false} StuffedRunsOk(bits: seq<bool>, ones: nat)
    requires ones < 5
    ensures RunsOk(Stuff(bits, ones), ones)
    decreases |bits|
  {
    if bits != [] {
      var next := if !bits[0] || ones == 4 then 0 else ones + 1;
      StuffedRunsOk(bits[1..], next);
      var y := Stuff(bits, ones);
      if bits[0] && ones == 4 {
        assert y[1..] == [false] + Stuff(bits[1..], 0);
        assert y[1..][1..] == Stuff(bits[1..], 0);
      } else {
        assert y[1..] == Stuff(bits[1..], next);
      }
    }
  }

  lemma {:induction false} RunsOkZeros(bits: seq<bool>, ones: nat, n: nat)
    requires RunsOk(bits, ones)
    ensures RunsOk(bits + Zeros(n), ones)
    decreases |bits| + n
  {
    var y := bits + Zeros(n);
    if bits != [] {
      assert y[1..] == bits[1..] + Zeros(n);
      RunsOkZeros(bits[1..], if bits[0] then ones + 1 else 0, n);
    } else if n > 0 {
      assert y[1..] == [] + Zeros(n - 1);
      RunsOkZeros([], 0, n - 1);
    }
  }

  lemma {:induction false} LeadingOnes(bits: seq<bool>, ones: nat, k: nat)
    requires RunsOk(bits, ones) && k <= |bits| && ones <= 5
    requires forall i :: 0 <= i < k ==> bits[i]
    ensures ones + k <= 5
    decreases k
  {
    if k > 0 { LeadingOnes(bits[1..], ones + 1, k - 1); }
  }

  // ---- NRZI ---------------------------------------------------------------------------------------

  /** A 0 changes the level, a 1 keeps it. */
  function NrziEncode(bits: seq<bool>, level: bool): seq<bool> {
    if bits == [] then []
    else
      var next := if bits[0] then level else !level;
      [next] + NrziEncode(bits[1..], next)
  }

  function NrziDecode(levels: seq<bool>, prev: bool): seq<bool> {
    if levels == [] then [] else [levels[0] == prev] + NrziDecode(levels[1..], levels[0])
  }

  /** A 0 changes the level and a 1 keeps it. */
  lemma {:induction false} NrziAt(bits: seq<bool>, level: bool, k: nat)
    requires k < |bits|
    ensures var levels := NrziEncode(bits, level);
            |levels| == |bits| && (levels[k] == (if k == 0 then level else levels[k - 1]) <==> bits[k])
    decreases k
  {
    NrziLength(bits, level);
    if k > 0 { NrziAt(bits[1..], if bits[0] then level else !level, k - 1); }
  }

  lemma {:induction false} NrziLength(bits: seq<bool>, level: bool)
    ensures |NrziEncode(bits, level)| == |bits|
    decreases |bits|
  {
    if bits != [] { NrziLength(bits[1..], if bits[0] then level else !level); }
  }

  /** Sent and received from the same level, the bits come back; and every level sequence is the
      encoding of its own decoding. */
  lemma {:induction false} NrziRoundTrip(bits: seq<bool>, level: bool)
    ensures NrziDecode(NrziEncode(bits, level), level) == bits
    ensures NrziEncode(NrziDecode(bits, level), level) == bits
    decreases |bits|
  {
    if bits != [] {
      var next := if bits[0] then level else !level;
      NrziRoundTrip(bits[1..], next);
      NrziRoundTrip(bits[1..], bits[0]);
      assert NrziEncode(bits, level)[1..] == NrziEncode(bits[1..], next);
      assert NrziDecode(bits, level)[1..] == NrziDecode(bits[1..], bits[0]);
      assert bits == [bits[0]] + bits[1..];
    }
  }

  lemma {:induction false} NrziDecodeConcat(xs: seq<bool>, ys: seq<bool>, prev: bool)
    ensures NrziDecode(xs + ys, prev) ==
            NrziDecode(xs, prev) + NrziDecode(ys, if xs == [] then prev else xs[|xs| - 1])
    decreases |xs|
  {
    if xs == [] {
      assert xs + ys == ys;
    } else {
      assert (xs + ys)[1..] == xs[1..] + ys;
      NrziDecodeConcat(xs[1..], ys, xs[0]);
    }
  }
}
