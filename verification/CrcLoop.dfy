/** The frame check sequence as it is computed: octet by octet, on a number of sixteen bits. */
module CrcLoop {
  import opened Common
  import opened Bits
  import opened Crc
  import opened Numbers

  // ---- one clock pulse -----------------------------------------------------------------------------------

  /** `y` and `z` are the numbers left when one and two nibbles are taken off `x`. */
  lemma TwoNibbles(x: nat, y: nat, z: nat, a: nat, b: nat, n: nat)
    requires a < 16 && b < 16
    requires x == a + 16 * y && y == b + 16 * z
    ensures Word(x, 8 + n) == Word(a, 4) + (Word(b, 4) + Word(z, n))
  {
    Nibble(a, y, 4 + n);
    Nibble(b, z, n);
  }

  lemma Nibbles()
    ensures Word(0, 4) == [false, false, false, false]
    ensures Word(4, 4) == [false, false, true, false]
    ensures Word(8, 4) == [false, false, false, true]
  {}

  /** The feedback of 0x8408 goes to stages 3, 10 and 15. */
  lemma PolynomialBits(poly: nat)
    requires poly == 0x8408
    ensures forall i :: 0 <= i < 16 ==> Word(poly, 16)[i] == Tap(i)
  {
    Nibbles();
    assert 0x84 == 4 + 16 * 8;
    Nibble(4, 8, 4);
    TwoNibbles(poly, 0x840, 0x84, 8, 0, 8);
  }

  /** One turn of the inner loop. */
  function Shifted(c: nat, poly: nat): nat {
    if c % 2 == 1 then XorNat(c / 2, poly) else c / 2
  }

  /** It is one clock pulse of the register. (`poly` stands for 0x8408: the lemmas below name it often, and its
      sixteen digits are worked out in `PolynomialBits` alone.) */
  lemma ShiftedIsStep(c: nat, poly: nat)
    requires c < Pow2(16) && poly == 0x8408
    ensures Word(Shifted(c, poly), 16) == Step(Word(c, 16), false)
  {
    var r := Word(c, 16);
    WordShift(c, 16);
    assert r[0] == (c % 2 == 1);
    if c % 2 == 1 { XorIsTapped(c / 2, poly); }
  }

  lemma XorIsTapped(c: nat, poly: nat)
    requires poly == 0x8408
    ensures Word(XorNat(c, poly), 16) == Tapped(Word(c, 16))
  {
    PolynomialBits(poly);
    WordXor(c, poly, 16);
  }

  lemma ShiftedBelow(c: nat, poly: nat)
    requires c < Pow2(16) && poly == 0x8408
    ensures Shifted(c, poly) < Pow2(16)
  {
    PowerValues();
    if c % 2 == 1 { XorBelow(c / 2, poly, 16); }
  }

  // ---- the loops ---------------------------------------------------------------------------------------

  lemma OctetAsWord(b: byte)
    ensures Word(b as nat, 16) == ToBits(b, 8) + Zeros(8)
  {
    PowerValues();
    OctetPadded(b, 8, 8);
  }

  lemma OctetPadded(b: byte, k: nat, n: nat)
    requires b as nat < Pow2(k)
    ensures Word(b as nat, k + n) == ToBits(b, k) + Zeros(n)
  {
    WordPad(b as nat, k, n);
    WordOctet(b, k);
  }

  lemma XorOctet(c: nat, b: byte)
    requires c < Pow2(16)
    ensures Word(XorNat(c, b as nat), 16) == Xor(Word(c, 16), ToBits(b, 8))
    ensures XorNat(c, b as nat) < Pow2(16)
  {
    PowerValues();
    WordXor(c, b as nat, 16);
    XorBelow(c, b as nat, 16);
    XorOctetBits(Word(c, 16), b);
  }

  lemma XorOctetBits(r: Register, b: byte)
    ensures Xor(r, Word(b as nat, 16)) == Xor(r, ToBits(b, 8))
  {
    OctetAsWord(b);
  }

  lemma RunSnoc(data: Bytes, i: nat)
    requires i < |data|
    ensures Run(Init(), BytesToBits(data[..i + 1])) ==
            Run(Run(Init(), BytesToBits(data[..i])), ToBits(data[i], 8))
  {
    assert data[..i + 1] == data[..i] + [data[i]];
    BytesToBitsConcat(data[..i], [data[i]]);
    OneOctet(data[i]);
    RunConcat(Init(), BytesToBits(data[..i]), ToBits(data[i], 8));
  }

  method CrcX25(data: Bytes) returns (crc: nat)
    ensures crc < 0x10000
    ensures Word(crc, 16) == Fcs(data)
  {
    PowerValues();
    AllOnes();
    crc := 0xFFFF;
    for i := 0 to |data|
      invariant crc < Pow2(16)
      invariant Word(crc, 16) == Run(Init(), BytesToBits(data[..i]))
    {
      ghost var before := Word(crc, 16);
      XorOctet(crc, data[i]);
      crc := XorNat(crc, data[i] as nat);
      crc := EightShifts(crc, Xor(before, ToBits(data[i], 8)));
      RunIsXorThenShift(before, ToBits(data[i], 8));
      RunSnoc(data, i);
    }
    assert data[..|data|] == data;
    FlipBits(crc);
    crc := XorNat(crc, 0xFFFF);
  }

  method EightShifts(start: nat, ghost r: Register) returns (crc: nat)
    requires start < Pow2(16) && Word(start, 16) == r
    ensures crc < Pow2(16) && Word(crc, 16) == Run(r, Zeros(8))
  {
    crc := start;
    assert Run(r, Zeros(0)) == r;
    for k := 0 to 8
      invariant crc < Pow2(16) && Word(crc, 16) == Run(r, Zeros(k))
    {
      ShiftedIsStep(crc, 0x8408);
      ShiftedBelow(crc, 0x8408);
      RunZeros(r, k);
      if crc % 2 == 1 {
        crc := XorNat(crc / 2, 0x8408);
      } else {
        crc := crc / 2;
      }
    }
  }

  lemma {:induction false} OnesBits(n: nat)
    ensures Word(Pow2(n) - 1, n) == seq(n, i => true)
    decreases n
  {
    if n > 0 {
      assert (Pow2(n) - 1) / 2 == Pow2(n - 1) - 1;
      OnesBits(n - 1);
    }
  }

  lemma AllOnes()
    ensures Word(0xFFFF, 16) == Init()
  {
    PowerValues();
    OnesBits(16);
  }

  lemma FlipBits(c: nat)
    requires c < Pow2(16)
    ensures Word(XorNat(c, 0xFFFF), 16) == Complement(Word(c, 16))
    ensures XorNat(c, 0xFFFF) < Pow2(16)
  {
    PowerValues();
    AllOnes();
    WordXor(c, 0xFFFF, 16);
    XorBelow(c, 0xFFFF, 16);
  }

  lemma OctetsOfWord(crc: nat)
    ensures Word(crc, 16) == Word(crc % 256, 8) + Word(crc / 256, 8)
  {
    assert crc % 256 + 256 * (crc / 256) == crc;
    TwoHalves(crc % 256, crc / 256);
  }

  lemma TwoCheckOctets(fcs: seq<bool>, crc: nat)
    requires crc < 0x10000 && fcs == Word(crc, 16)
    ensures [Pack(fcs[..8]), Pack(fcs[8..])] == [Octet(crc % 256), Octet(crc / 256 % 256)]
  {
    OctetsOfWord(crc);
    SplitAt(fcs, Word(crc % 256, 8), Word(crc / 256, 8));
    HighPart(crc);
  }

  lemma HighPart(crc: nat)
    requires crc < 0x10000
    ensures crc / 256 % 256 == crc / 256
  {}

  lemma SplitAt(w: seq<bool>, a: seq<bool>, b: seq<bool>)
    requires w == a + b
    ensures w[..|a|] == a && w[|a|..] == b
  {}

  method AppendFcsOctets(payload: Bytes) returns (frame: Bytes)
    ensures frame == AppendFcs(payload)
  {
    var crc := CrcX25(payload);
    PowerValues();
    TwoCheckOctets(Fcs(payload), crc);
    frame := payload + [Octet(crc % 256), Octet(crc / 256 % 256)];
  }

  /** The check sequence received, as a number. */
  method Received(frame: Bytes) returns (got: nat)
    requires |frame| >= 2
    ensures got < Pow2(16) && Word(got, 16) == CheckBits(frame)
  {
    var lo, hi := frame[|frame| - 2], frame[|frame| - 1];
    WordOfOctets(lo, hi);
    got := lo as nat + 256 * hi as nat;
  }

  method VerifyFcsOctets(frame: Bytes) returns (ok: bool)
    ensures ok == VerifyFcs(frame)
  {
    if |frame| < 3 { return false; }
    var got := Received(frame);
    var crc := CrcX25(frame[..|frame| - 2]);
    PowerValues();
    SameWord(crc, got);
    ok := crc == got;
  }
}
