/** The frame check sequence. The CRC-16/X.25 register is specified bit by bit, as the sixteen-stage
    shift register of the standard, and proved to catch every burst of at most sixteen bits. The
    octet-wise computation on numbers is in CrcLoop. */
module Crc {
  import opened Common
  import opened Bits

  /** The register, least significant stage first. */
  type Register = r: seq<bool> | |r| == 16 witness seq(16, i => true)

  function Init(): Register { seq(16, i => true) }

  /** The polynomial 0x8408 exclusive-ored in: stages 3, 10 and 15. */
  function Tapped(r: Register): Register { r[3 := !r[3]][10 := !r[10]][15 := !r[15]] }

  /** One bit shifted in. */
  function Step(r: Register, b: bool): Register {
    if r[0] != b then Tapped(r[1..] + [false]) else r[1..] + [false]
  }

  function Run(r: Register, bits: seq<bool>): Register
    decreases |bits|
  {
    if bits == [] then r else Run(Step(r, bits[0]), bits[1..])
  }

  function Complement(r: Register): Register {
    seq(16, i requires 0 <= i < 16 => !r[i])
  }

  /** The sixteen check bits of `data`, in the order they go on the air. */
  function Fcs(data: Bytes): Register { Complement(Run(Init(), BytesToBits(data))) }

  function AppendFcs(payload: Bytes): Bytes {
    payload + [Pack(Fcs(payload)[..8]), Pack(Fcs(payload)[8..])]
  }

  /** The last two octets, as bits. */
  function CheckBits(frame: Bytes): (r: seq<bool>)
    requires |frame| >= 2
    ensures |r| == 16
  {
    ToBits(frame[|frame| - 2], 8) + ToBits(frame[|frame| - 1], 8)
  }

  predicate VerifyFcs(frame: Bytes) {
    |frame| >= 3 && CheckBits(frame) == Fcs(frame[..|frame| - 2])
  }

  // ---- what is appended verifies -----------------------------------------------------------------

  lemma TwoOctets(xs: Bytes)
    requires |xs| == 2
    ensures BytesToBits(xs) == ToBits(xs[0], 8) + ToBits(xs[1], 8)
  {
    assert xs[1..][1..] == [];
    assert BytesToBits(xs[1..]) == ToBits(xs[1], 8) + BytesToBits([]);
  }

  /** On the air the frame is the payload followed by the check bits. */
  lemma AppendFcsBits(payload: Bytes)
    ensures BytesToBits(AppendFcs(payload)) == BytesToBits(payload) + Fcs(payload)
  {
    var f := Fcs(payload);
    var check := [Pack(f[..8]), Pack(f[8..])];
    BytesToBitsConcat(payload, check);
    TwoOctets(check);
    UnpackPack(f[..8]);
    UnpackPack(f[8..]);
  }

  lemma AppendedVerifies(payload: Bytes)
    requires payload != []
    ensures VerifyFcs(AppendFcs(payload))
  {
    var f := Fcs(payload);
    UnpackPack(f[..8]);
    UnpackPack(f[8..]);
    assert AppendFcs(payload)[..|payload|] == payload;
    assert f[..8] + f[8..] == f;
  }

  // ---- verification is a fixed residue --------------------------------------------------------------

  function Xor(r: Register, w: seq<bool>): Register
    requires |w| <= 16
  {
    seq(16, i requires 0 <= i < 16 => r[i] != (i < |w| && w[i]))
  }

  lemma {:induction false} RunConcat(r: Register, xs: seq<bool>, ys: seq<bool>)
    ensures Run(r, xs + ys) == Run(Run(r, xs), ys)
    decreases |xs|
  {
    if xs == [] {
      assert xs + ys == ys;
    } else {
      assert (xs + ys)[1..] == xs[1..] + ys;
      RunConcat(Step(r, xs[0]), xs[1..], ys);
    }
  }

  lemma XorShift(r: Register, w: seq<bool>)
    requires 0 < |w| <= 16
    ensures Xor(r, w)[1..] + [false] == Xor(r[1..] + [false], w[1..])
  {}

  lemma XorTapped(r: Register, w: seq<bool>)
    requires |w| <= 16
    ensures Tapped(Xor(r, w)) == Xor(Tapped(r), w)
  {}

  /** Feeding up to sixteen bits is exclusive-oring them in first and then shifting. */
  lemma {:induction false} RunIsXorThenShift(r: Register, w: seq<bool>)
    requires |w| <= 16
    ensures Run(r, w) == Run(Xor(r, w), Zeros(|w|))
    decreases |w|
  {
    if w == [] {
      assert Xor(r, w) == r;
    } else {
      RunIsXorThenShift(Step(r, w[0]), w[1..]);
      assert Zeros(|w|)[1..] == Zeros(|w| - 1);
      XorShift(r, w);
      XorTapped(r[1..] + [false], w[1..]);
    }
  }

  lemma StepInjective(r: Register, s: Register, b: bool)
    ensures Step(r, b) == Step(s, b) ==> r == s
  {
    if Step(r, b) == Step(s, b) {
      assert Step(r, b)[15] == Step(s, b)[15];
      assert r[0] == s[0];
      forall i | 0 < i < 16 ensures r[i] == s[i] {
        assert Step(r, b)[i - 1] == Step(s, b)[i - 1];
      }
    }
  }

  /** Equal bits never bring two different registers together. */
  lemma {:induction false} RunInjective(r: Register, s: Register, bits: seq<bool>)
    requires Run(r, bits) == Run(s, bits)
    ensures r == s
    decreases |bits|
  {
    if bits != [] {
      RunInjective(Step(r, bits[0]), Step(s, bits[0]), bits[1..]);
      StepInjective(r, s, bits[0]);
    }
  }

  /** The register contents after a good frame: 0xF0B8, as in Appendix C.2 of RFC 1662. */
  function Residue(): Register {
    [false, false, false, true, true, true, false, true, false, false, false, false, true, true, true, true]
  }

  /** The register with its stages spelt out. */
  predicate Stages(r: Register,
                   b0: bool, b1: bool, b2: bool, b3: bool, b4: bool, b5: bool, b6: bool, b7: bool,
                   b8: bool, b9: bool, b10: bool, b11: bool, b12: bool, b13: bool, b14: bool, b15: bool)
  {
    && r[0] == b0 && r[1] == b1 && r[2] == b2 && r[3] == b3
    && r[4] == b4 && r[5] == b5 && r[6] == b6 && r[7] == b7
    && r[8] == b8 && r[9] == b9 && r[10] == b10 && r[11] == b11
    && r[12] == b12 && r[13] == b13 && r[14] == b14 && r[15] == b15
  }

  predicate Tap(i: nat) { i == 3 || i == 10 || i == 15 }

  lemma StepAt(r: Register, b: bool)
    ensures forall i :: 0 <= i < 16 ==> Step(r, b)[i] == ((i < 15 && r[i + 1]) != (r[0] != b && Tap(i)))
  {}

  lemma RunZeros(r: Register, n: nat)
    ensures Run(r, Zeros(n + 1)) == Step(Run(r, Zeros(n)), false)
  {
    assert Zeros(n + 1) == Zeros(n) + [false];
    RunConcat(r, Zeros(n), [false]);
    assert [false][1..] == [];
    assert Run(Run(r, Zeros(n)), [false]) == Step(Run(r, Zeros(n)), false);
  }

  lemma StepStages(r: Register,
                   b0: bool, b1: bool, b2: bool, b3: bool, b4: bool, b5: bool, b6: bool, b7: bool,
                   b8: bool, b9: bool, b10: bool, b11: bool, b12: bool, b13: bool, b14: bool, b15: bool)
    requires Stages(r, b0, b1, b2, b3, b4, b5, b6, b7, b8, b9, b10, b11, b12, b13, b14, b15)
    ensures Stages(Step(r, false), b1, b2, b3, b4 != b0, b5, b6, b7, b8,
                   b9, b10, b11 != b0, b12, b13, b14, b15, b0)
  {
    StepAt(r, false);
  }

  /** One clock pulse with a 0 at the input, after `n` of them. */
  lemma Clock(r: Register, n: nat,
              b0: bool, b1: bool, b2: bool, b3: bool, b4: bool, b5: bool, b6: bool, b7: bool,
              b8: bool, b9: bool, b10: bool, b11: bool, b12: bool, b13: bool, b14: bool, b15: bool)
    requires Stages(Run(r, Zeros(n)), b0, b1, b2, b3, b4, b5, b6, b7, b8, b9, b10, b11, b12, b13, b14, b15)
    ensures Stages(Run(r, Zeros(n + 1)), b1, b2, b3, b4 != b0, b5, b6, b7, b8,
                   b9, b10, b11 != b0, b12, b13, b14, b15, b0)
  {
    RunZeros(r, n);
    StepStages(Run(r, Zeros(n)), b0, b1, b2, b3, b4, b5, b6, b7, b8, b9, b10, b11, b12, b13, b14, b15);
  }

  lemma SixteenClocks(r: Register, n: nat)
    requires Stages(Run(r, Zeros(n)), true, true, true, true, true, true, true, true,
                    true, true, true, true, true, true, true, true)
    ensures Stages(Run(r, Zeros(n + 16)), false, false, false, true, true, true, false, true,
                   false, false, false, false, true, true, true, true)
  {
    var t, f := true, false;
    Clock(r, n + 0, t, t, t, t, t, t, t, t, t, t, t, t, t, t, t, t);
    Clock(r, n + 1, t, t, t, f, t, t, t, t, t, t, f, t, t, t, t, t);
    Clock(r, n + 2, t, t, f, f, t, t, t, t, t, f, f, t, t, t, t, t);
    Clock(r, n + 3, t, f, f, f, t, t, t, t, f, f, f, t, t, t, t, t);
    Clock(r, n + 4, f, f, f, f, t, t, t, f, f, f, f, t, t, t, t, t);
    Clock(r, n + 5, f, f, f, t, t, t, f, f, f, f, t, t, t, t, t, f);
    Clock(r, n + 6, f, f, t, t, t, f, f, f, f, t, t, t, t, t, f, f);
    Clock(r, n + 7, f, t, t, t, f, f, f, f, t, t, t, t, t, f, f, f);
    Clock(r, n + 8, t, t, t, f, f, f, f, t, t, t, t, t, f, f, f, f);
    Clock(r, n + 9, t, t, f, t, f, f, t, t, t, t, f, f, f, f, f, t);
    Clock(r, n + 10, t, f, t, t, f, t, t, t, t, f, t, f, f, f, t, t);
    Clock(r, n + 11, f, t, t, t, t, t, t, t, f, t, t, f, f, t, t, t);
    Clock(r, n + 12, t, t, t, t, t, t, t, f, t, t, f, f, t, t, t, f);
    Clock(r, n + 13, t, t, t, f, t, t, f, t, t, f, t, t, t, t, f, t);
    Clock(r, n + 14, t, t, f, f, t, f, t, t, f, t, f, t, t, f, t, t);
    Clock(r, n + 15, t, f, f, f, f, t, t, f, t, f, f, t, f, t, t, t);
  }

  /** All ones, sixteen zeros later, are the residue. (`n` stands for 16: on a variable the sixteen pulses are
      taken one by one.) */
  lemma ResidueValue(n: nat)
    requires n == 16
    ensures Run(Init(), Zeros(n)) == Residue()
  {
    assert Run(Init(), Zeros(n - 16)) == Init();
    SixteenClocks(Init(), n - 16);
  }

  /** A frame verifies exactly when the register run over all of it, check sequence included, ends at
      the residue: the receiver need not know where the check sequence starts. */
  lemma VerifyIsResidue(frame: Bytes)
    requires |frame| >= 3
    ensures VerifyFcs(frame) <==> Run(Init(), BytesToBits(frame)) == Residue()
  {
    var r := Run(Init(), BytesToBits(frame[..|frame| - 2]));
    var w := CheckBits(frame);
    LastBits(frame);
    RunConcat(Init(), BytesToBits(frame[..|frame| - 2]), w);
    RunIsXorThenShift(r, w);
    ResidueValue(|w|);
    XorIsInit(r, w);
    if Run(r, w) == Residue() { RunInjective(Xor(r, w), Init(), Zeros(|w|)); }
  }

  lemma LastBits(frame: Bytes)
    requires |frame| >= 2
    ensures BytesToBits(frame) == BytesToBits(frame[..|frame| - 2]) + CheckBits(frame)
  {
    var last := frame[|frame| - 2..];
    assert frame == frame[..|frame| - 2] + last;
    BytesToBitsConcat(frame[..|frame| - 2], last);
    TwoOctets(last);
  }

  /** The register is all ones after the check bits exactly when they are its complement. */
  lemma XorIsInit(r: Register, w: seq<bool>)
    requires |w| == 16
    ensures Xor(r, w) == Init() <==> w == Complement(r)
  {
    if Xor(r, w) == Init() {
      forall i | 0 <= i < 16 ensures w[i] == Complement(r)[i] { assert Xor(r, w)[i] == Init()[i]; }
    }
  }

  // ---- bursts -------------------------------------------------------------------------------------------

  /** The registers differ in some stage from `k` up. */
  ghost predicate Apart(r: Register, s: Register, k: nat) {
    exists i :: k <= i < 16 && r[i] != s[i]
  }

  /** A difference moves down one stage at a time, unless the feedback lifts it to the top. */
  lemma ApartStep(r: Register, s: Register, b: bool, c: bool, k: nat)
    requires 0 < k && Apart(r, s, k)
    ensures Apart(Step(r, b), Step(s, c), k - 1)
  {
    var i :| k <= i < 16 && r[i] != s[i];
    if (r[0] != b) != (s[0] != c) {
      assert Step(r, b)[15] != Step(s, c)[15];
    } else {
      assert Step(r, b)[i - 1] != Step(s, c)[i - 1];
    }
  }

  /** `t` more bits may differ, the rest are equal: the registers still end apart. */
  lemma {:induction false} StaysApart(r: Register, s: Register, xs: seq<bool>, ys: seq<bool>, t: nat)
    requires |xs| == |ys| && Apart(r, s, t)
    requires forall i :: t <= i < |xs| ==> xs[i] == ys[i]
    ensures Run(r, xs) != Run(s, ys)
    decreases |xs|
  {
    if xs != [] {
      if t > 0 {
        ApartStep(r, s, xs[0], ys[0], t);
        StaysApart(Step(r, xs[0]), Step(s, ys[0]), xs[1..], ys[1..], t - 1);
      } else {
        assert xs == ys;
        if Run(r, xs) == Run(s, ys) { RunInjective(r, s, xs); }
      }
    }
  }

  /** The two bit strings differ, and only inside the `n` bits from `at` on. */
  ghost predicate Burst(xs: seq<bool>, ys: seq<bool>, at: nat, n: nat) {
    && |xs| == |ys| && xs != ys
    && forall i :: 0 <= i < |xs| && !(at <= i < at + n) ==> xs[i] == ys[i]
  }

  /** No burst of up to sixteen bits goes unnoticed, wherever it falls. */
  lemma {:induction false} BurstChangesRegister(r: Register, xs: seq<bool>, ys: seq<bool>, at: nat)
    requires Burst(xs, ys, at, 16)
    ensures Run(r, xs) != Run(r, ys)
    decreases |xs|
  {
    if xs[0] == ys[0] {
      assert xs == [xs[0]] + xs[1..] && ys == [ys[0]] + ys[1..];
      forall i | 0 <= i < |xs| - 1 && !((if at == 0 then 0 else at - 1) <= i < (if at == 0 then 0 else at - 1) + 16)
        ensures xs[1..][i] == ys[1..][i]
      {
        assert xs[i + 1] == ys[i + 1];
      }
      BurstChangesRegister(Step(r, xs[0]), xs[1..], ys[1..], if at == 0 then 0 else at - 1);
    } else {
      assert at == 0;
      assert Step(r, xs[0])[15] != Step(r, ys[0])[15];
      StaysApart(Step(r, xs[0]), Step(r, ys[0]), xs[1..], ys[1..], 15);
    }
  }

  /** Two frames of the same length whose bits differ in one burst of at most sixteen never both verify. */
  lemma BurstDetected(f: Bytes, g: Bytes, at: nat)
    requires |f| >= 3 && Burst(BytesToBits(f), BytesToBits(g), at, 16)
    ensures !(VerifyFcs(f) && VerifyFcs(g))
  {
    assert |g| == |f|;
    VerifyIsResidue(f);
    VerifyIsResidue(g);
    BurstChangesRegister(Init(), BytesToBits(f), BytesToBits(g), at);
  }

  lemma ThreeParts(f: Bytes, a: Bytes, b: Bytes, c: Bytes)
    requires f == a + (b + c)
    ensures BytesToBits(f) == BytesToBits(a) + (BytesToBits(b) + BytesToBits(c))
  {
    BytesToBitsConcat(a, b + c);
    BytesToBitsConcat(b, c);
  }

  lemma MiddleDiffers<T>(a: seq<T>, b: seq<T>, b2: seq<T>, c: seq<T>)
    requires |b| == |b2|
    ensures forall i :: (0 <= i < |a| || |a| + |b| <= i < |a| + |b| + |c|) ==> (a + (b + c))[i] == (a + (b2 + c))[i]
  {}

  lemma {:induction false} BitsOfSlice(f: Bytes, g: Bytes, k: nat)
    requires |f| == |g| && k + 2 <= |f|
    requires forall i :: 0 <= i < |f| && i != k && i != k + 1 ==> f[i] == g[i]
    ensures forall i :: 0 <= i < 8 * |f| && !(8 * k <= i < 8 * k + 16) ==> BytesToBits(f)[i] == BytesToBits(g)[i]
  {
    var a, b, b2, c := f[..k], f[k..k + 2], g[k..k + 2], f[k + 2..];
    assert f == a + (b + c);
    assert g == a + (b2 + c) by { assert g[..k] == a && g[k + 2..] == c; }
    ThreeParts(f, a, b, c);
    ThreeParts(g, a, b2, c);
    MiddleDiffers(BytesToBits(a), BytesToBits(b), BytesToBits(b2), BytesToBits(c));
  }

  /** In octets: frames that differ only inside two neighbouring octets, the boundary to the check
      sequence included, never both verify. */
  lemma TwoOctetsDetected(f: Bytes, g: Bytes, k: nat)
    requires |f| == |g| >= 3 && f != g && k + 2 <= |f|
    requires forall i :: 0 <= i < |f| && i != k && i != k + 1 ==> f[i] == g[i]
    ensures !(VerifyFcs(f) && VerifyFcs(g))
  {
    BitsOfSlice(f, g, k);
    PackUnpack(f);
    PackUnpack(g);
    BurstDetected(f, g, 8 * k);
  }
}
