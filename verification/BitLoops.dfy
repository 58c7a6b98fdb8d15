/** The bit-level loops: each accumulates its output bit by bit and is proved to compute the
    function of Bits that the theorems are about. */
module BitLoops {
  import opened Common
  import opened Bits

  // ---- octets to bits -----------------------------------------------------------------------------

  method BytesToBitsLsb(data: Bytes) returns (out: seq<bool>)
    ensures out == BytesToBits(data)
  {
    out := [];
    for i := 0 to |data|
      invariant out + BytesToBits(data[i..]) == BytesToBits(data)
    {
      ghost var before := out;
      assert data[i..][0] == data[i] && data[i..][1..] == data[i + 1..];
      out := AppendOctet(out, data[i]);
      assert out + BytesToBits(data[i + 1..]) == before + (ToBits(data[i], 8) + BytesToBits(data[i + 1..]));
    }
  }

  /** The inner loop, over the bits of one octet. */
  method AppendOctet(bits: seq<bool>, b: byte) returns (out: seq<bool>)
    ensures out == bits + ToBits(b, 8)
  {
    out := bits;
    for bit := 0 to 8
      invariant out == bits + ToBits(b, 8)[..bit]
    {
      ToBitsAt(b, 8, bit);
      out := out + [(b >> bit) & 1 != 0];
    }
  }

  // ---- bits to octets -----------------------------------------------------------------------------

  /** The value of a 1 at position `k` of an octet. */
  function Place(b: bool, k: nat): byte {
    if k == 0 then Bit(b) else Place(b, k - 1) << 1
  }

  lemma ShiftOr(x: byte, y: byte, z: byte)
    ensures x | ((y | z) << 1) == (x | (y << 1)) | (z << 1)
  {}

  lemma {:induction false} PackSnoc(bits: seq<bool>, b: bool)
    ensures Pack(bits + [b]) == Pack(bits) | Place(b, |bits|)
    decreases |bits|
  {
    var all := bits + [b];
    if bits == [] {
      assert all[1..] == [];
    } else {
      assert all[1..] == bits[1..] + [b];
      PackSnoc(bits[1..], b);
      ShiftOr(Bit(bits[0]), Pack(bits[1..]), Place(b, |bits| - 1));
    }
  }

  lemma {:induction false} PlaceFalse(k: nat)
    ensures Place(false, k) == 0
  {
    if k > 0 { PlaceFalse(k - 1); }
  }

  lemma PlaceTrue(k: nat)
    requires k < 8
    ensures Place(true, k) == 1 << k
    decreases k
  {
    if k > 0 {
      PlaceTrue(k - 1);
      OneShift(k - 1);
    }
  }

  lemma OneShift(k: nat)
    requires k < 7
    ensures ((1 as byte) << k) << 1 == 1 << (k + 1)
  {
    if k == 0 {}
    else if k == 1 {}
    else if k == 2 {}
    else if k == 3 {}
    else if k == 4 {}
    else if k == 5 {}
    else {}
  }

  lemma FirstOctet(bits: seq<bool>, head: seq<bool>, tail: seq<bool>)
    requires |head| == 8 && bits == head + tail
    ensures BitsToBytes(bits) == [Pack(head)] + BitsToBytes(tail)
  {
    assert bits[..8] == head && bits[8..] == tail;
  }

  lemma {:induction false} BitsToBytesConcat(xs: seq<bool>, ys: seq<bool>)
    requires |xs| % 8 == 0
    ensures BitsToBytes(xs + ys) == BitsToBytes(xs) + BitsToBytes(ys)
    decreases |xs|
  {
    if |xs| < 8 {
      assert xs == [] && xs + ys == ys;
    } else {
      OctetConcat(xs, xs[..8], xs[8..], ys);
    }
  }

  lemma {:induction false} OctetConcat(xs: seq<bool>, head: seq<bool>, tail: seq<bool>, ys: seq<bool>)
    requires |head| == 8 && xs == head + tail && |tail| % 8 == 0
    ensures BitsToBytes(xs + ys) == BitsToBytes(xs) + BitsToBytes(ys)
    decreases |tail| + 1
  {
    Chain(head, tail, ys);
    FirstOctet(xs, head, tail);
    FirstOctet(xs + ys, head, tail + ys);
    BitsToBytesConcat(tail, ys);
    Chain([Pack(head)], BitsToBytes(tail), BitsToBytes(ys));
  }

  method BitsToBytesLsb(bits: seq<bool>) returns (out: Bytes)
    ensures out == BitsToBytes(bits)
  {
    out := [];
    var value: byte, count: nat := 0, 0;
    ghost var done: seq<bool>, group: seq<bool> := [], [];
    for i := 0 to |bits|
      invariant bits[..i] == done + group && |done| % 8 == 0 && count == |group| < 8
      invariant out == BitsToBytes(done) && value == Pack(group)
    {
      assert bits[..i + 1] == done + (group + [bits[i]]);
      value := WithBit(value, count, bits[i], group);
      count, group := count + 1, group + [bits[i]];
      if count == 8 {
        Group(done, group);
        out := out + [value];
        value, count := 0, 0;
        done, group := done + group, [];
        assert done + [] == done;
      }
    }
    assert bits == done + group;
    BitsToBytesConcat(done, group);
    if count != 0 {
      out := out + [value];
    }
  }

  /** One turn: a 1 sets the bit at the current position. */
  method WithBit(value: byte, count: nat, bit: bool, ghost group: seq<bool>) returns (r: byte)
    requires |group| == count < 8 && value == Pack(group)
    ensures r == Pack(group + [bit])
  {
    PackSnoc(group, bit);
    if bit {
      PlaceTrue(count);
      r := value | (1 << count);
    } else {
      PlaceFalse(count);
      r := value;
      assert value | 0 == value;
    }
  }

  lemma Group(xs: seq<bool>, group: seq<bool>)
    requires |xs| % 8 == 0 && |group| == 8
    ensures BitsToBytes(xs + group) == BitsToBytes(xs) + [Pack(group)]
  {
    BitsToBytesConcat(xs, group);
    assert group[..8] == group && group[8..] == [];
  }

  // ---- stuffing -----------------------------------------------------------------------------------

  method BitStuff(bits: seq<bool>) returns (out: seq<bool>)
    ensures out == Stuff(bits, 0)
  {
    out := [];
    var ones := 0;
    for i := 0 to |bits|
      invariant 0 <= ones < 5
      invariant out + Stuff(bits[i..], ones) == Stuff(bits, 0)
    {
      ghost var before := out;
      assert bits[i..][0] == bits[i] && bits[i..][1..] == bits[i + 1..];
      out := out + [bits[i]];
      if bits[i] {
        ones := ones + 1;
        if ones == 5 {
          out := out + [false];
          ones := 0;
          assert out + Stuff(bits[i + 1..], 0) == before + ([true, false] + Stuff(bits[i + 1..], 0));
        } else {
          assert out + Stuff(bits[i + 1..], ones) == before + ([true] + Stuff(bits[i + 1..], ones));
        }
      } else {
        ones := 0;
        assert out + Stuff(bits[i + 1..], 0) == before + ([false] + Stuff(bits[i + 1..], 0));
      }
    }
  }

  method BitUnstuff(bits: seq<bool>) returns (r: Option<seq<bool>>)
    ensures r == Unstuff(bits, 0)
  {
    var out: seq<bool> := [];
    var ones, skipZero := 0, false;
    BeforeNothing(Unstuff(bits, 0));
    for i := 0 to |bits|
      invariant 0 <= ones <= 5 && skipZero == (ones == 5)
      invariant Before(out, Unstuff(bits[i..], ones)) == Unstuff(bits, 0)
    {
      assert bits[i..][0] == bits[i] && bits[i..][1..] == bits[i + 1..];
      if skipZero {
        if bits[i] { return None; }
        skipZero := false;
        ones := 0;
      } else {
        BeforeBefore(out, [bits[i]], Unstuff(bits[i + 1..], if bits[i] then ones + 1 else 0));
        out := out + [bits[i]];
        if bits[i] {
          ones := ones + 1;
          if ones == 5 { skipZero := true; }
        } else {
          ones := 0;
        }
      }
    }
    if skipZero { return None; }
    assert out + [] == out;
    return Some(out);
  }

  lemma BeforeNothing(r: Option<seq<bool>>)
    ensures Before([], r) == r
  {
    if r.Some? { assert [] + r.value == r.value; }
  }

  // ---- NRZI ---------------------------------------------------------------------------------------

  method NrziEncodeBits(bits: seq<bool>, initial: bool) returns (out: seq<bool>)
    ensures out == NrziEncode(bits, initial)
  {
    out := [];
    var level := initial;
    for i := 0 to |bits|
      invariant out + NrziEncode(bits[i..], level) == NrziEncode(bits, initial)
    {
      ghost var before := out;
      assert bits[i..][0] == bits[i] && bits[i..][1..] == bits[i + 1..];
      if !bits[i] {
        level := !level;
      }
      out := out + [level];
      assert out + NrziEncode(bits[i + 1..], level) == before + ([level] + NrziEncode(bits[i + 1..], level));
    }
  }

  method NrziDecodeLevels(levels: seq<bool>, initial: bool) returns (out: seq<bool>)
    ensures out == NrziDecode(levels, initial)
  {
    out := [];
    var prev := initial;
    for i := 0 to |levels|
      invariant out + NrziDecode(levels[i..], prev) == NrziDecode(levels, initial)
    {
      ghost var before, was := out, prev;
      assert levels[i..][0] == levels[i] && levels[i..][1..] == levels[i + 1..];
      out := out + [levels[i] == prev];
      prev := levels[i];
      assert out + NrziDecode(levels[i + 1..], prev) ==
             before + ([levels[i] == was] + NrziDecode(levels[i + 1..], prev));
    }
  }
}
