/** HDLC framing: one frame between flags in octets, and the extractor that finds frames in a bit
    stream handed over in pieces (section 3 of AX.25 v2.2). */
module Hdlc {
  import opened Common
  import opened Bits
  import opened Crc

  const FLAG_OCTET: byte := 0x7E

  function Flag(): (r: seq<bool>)
    ensures |r| == 8
  {
    [false, true, true, true, true, true, true, false]
  }

  /** The stuffed bits of one payload and its check sequence. */
  function Body(payload: Bytes): seq<bool> {
    Stuff(BytesToBits(AppendFcs(payload)), 0)
  }

  // ---- one frame as octets --------------------------------------------------------------------------

  function EncodeFrame(payload: Bytes): Bytes {
    [FLAG_OCTET] + BitsToBytes(Body(payload)) + [FLAG_OCTET]
  }

  function DecodeFrame(frame: Bytes): Result<Bytes> {
    if |frame| < 4 || frame[0] != FLAG_OCTET || frame[|frame| - 1] != FLAG_OCTET then
      Err("Missing HDLC frame flags")
    else
      var bits := Unstuff(BytesToBits(frame[1..|frame| - 1]), 0);
      if bits.None? then Err("Invalid HDLC bit-stuff sequence")
      else
        var raw := BitsToBytes(bits.value);
        if VerifyFcs(raw) then Ok(raw[..|raw| - 2]) else Err("Bad AX.25 FCS")
  }

  /** How many bits are missing to a whole octet. */
  function Padding(n: nat): nat { (8 - n % 8) % 8 }

  lemma {:induction false} UnpackPadded(bits: seq<bool>, n: nat)
    requires |bits| <= n <= 8
    ensures ToBits(Pack(bits), n) == bits + Zeros(n - |bits|)
    decreases n
  {
    if bits == [] {
      ZeroBits(n);
      assert [] + Zeros(n) == Zeros(n);
    } else {
      PackHead(bits);
      UnpackPadded(bits[1..], n - 1);
      assert bits == [bits[0]] + bits[1..];
    }
  }

  lemma {:induction false} ZeroBits(n: nat)
    ensures ToBits(0, n) == Zeros(n)
  {
    if n > 0 {
      assert (0 as byte) >> 1 == 0;
      assert (0 as byte) & 1 == 0;
      ZeroBits(n - 1);
      assert [false] + Zeros(n - 1) == Zeros(n);
    }
  }

  lemma LastOctet(bits: seq<bool>, k: nat)
    requires 0 < |bits| <= 8 && k == 8 - |bits|
    ensures BytesToBits([Pack(bits)]) == bits + Zeros(k)
  {
    OneOctet(Pack(bits));
    UnpackPadded(bits, 8);
  }

  /** Packing and unpacking fills up with zeros to a whole octet. */
  lemma {:induction false} PackedBits(bits: seq<bool>, k: nat)
    requires k == Padding(|bits|)
    ensures BytesToBits(BitsToBytes(bits)) == bits + Zeros(k)
    decreases |bits|
  {
    if bits == [] {
    } else if |bits| < 8 {
      LastOctet(bits, k);
    } else {
      PackedBits(bits[8..], k);
      PackedJoin(bits, BitsToBytes(bits[8..]), k);
    }
  }

  lemma PackedJoin(bits: seq<bool>, octets: Bytes, k: nat)
    requires |bits| >= 8
    requires BytesToBits(octets) == bits[8..] + Zeros(k)
    ensures BytesToBits([Pack(bits[..8])] + octets) == bits + Zeros(k)
  {
    var head := bits[..8];
    LastOctet(head, 0);
    BytesToBitsConcat([Pack(head)], octets);
    assert bits + Zeros(k) == (head + Zeros(0)) + (bits[8..] + Zeros(k));
  }

  /** A zero octet after a good frame spoils it. */
  lemma PaddedIsBad(payload: Bytes)
    requires payload != []
    ensures !VerifyFcs(AppendFcs(payload) + [0])
  {
    var f := AppendFcs(payload);
    AppendedVerifies(payload);
    VerifyIsResidue(f);
    VerifyIsResidue(f + [0]);
    BytesToBitsConcat(f, [0]);
    ZeroBits(8);
    OneOctet(0);
    RunConcat(Init(), BytesToBits(f), Zeros(8));
    ResidueMoves(Residue(), 0, 8);
  }

  /** Eight more clock pulses turn 0xF0B8 into 0x3933. */
  lemma ResidueMoves(r: Register, n: nat, m: nat)
    requires r == Residue() && n == 0 && m == n + 8
    ensures Run(r, Zeros(m)) != Residue()
  {
    var t, f := true, false;
    assert Run(r, Zeros(n)) == r;
    Clock(r, n + 0, f, f, f, t, t, t, f, t, f, f, f, f, t, t, t, t);
    Clock(r, n + 1, f, f, t, t, t, f, t, f, f, f, f, t, t, t, t, f);
    Clock(r, n + 2, f, t, t, t, f, t, f, f, f, f, t, t, t, t, f, f);
    Clock(r, n + 3, t, t, t, f, t, f, f, f, f, t, t, t, t, f, f, f);
    Clock(r, n + 4, t, t, f, f, f, f, f, f, t, t, f, t, f, f, f, t);
    Clock(r, n + 5, t, f, f, t, f, f, f, t, t, f, f, f, f, f, t, t);
    Clock(r, n + 6, f, f, t, t, f, f, t, t, f, f, t, f, f, t, t, t);
    Clock(r, n + 7, f, t, t, f, f, t, t, f, f, t, f, f, t, t, t, f);
    assert Run(r, Zeros(m))[0] != Residue()[0];
  }

  /** Stuffed bits with `k` zeros of padding unstuff to the octets, and one zero octet if there was any. */
  lemma UnpackedBody(f: Bytes, k: nat)
    requires k < 8
    ensures Unstuff(Stuff(BytesToBits(f), 0) + Zeros(k), 0) == Some(BytesToBits(f) + Zeros(k))
    ensures BitsToBytes(BytesToBits(f) + Zeros(k)) == WithPad(f, k)
  {
    UnstuffStuffTail(BytesToBits(f), 0, Zeros(k));
    UnstuffZeros(k, EndOnes(BytesToBits(f), 0));
    PackRoundTrip(f, k);
  }

  /** Decoding padded octets: the frame itself, or the frame with a zero octet behind it. */
  lemma DecodeOctets(f: Bytes, octets: Bytes, k: nat)
    requires k < 8 && |octets| >= 2
    requires BytesToBits(octets) == Stuff(BytesToBits(f), 0) + Zeros(k)
    ensures DecodeFrame([FLAG_OCTET] + octets + [FLAG_OCTET]) ==
            var raw := WithPad(f, k);
            if VerifyFcs(raw) then Ok(raw[..|raw| - 2]) else Err("Bad AX.25 FCS")
  {
    var frame := [FLAG_OCTET] + octets + [FLAG_OCTET];
    assert frame[1..|frame| - 1] == octets;
    UnpackedBody(f, k);
  }

  lemma NoPadding(n: nat, m: nat)
    requires n % 8 == 0
    ensures Padding(n + m) == 0 <==> m % 8 == 0
  {}

  /** What comes back from the octet-level round trip, for every payload: the payload when the stuffed
      zeros fill whole octets, otherwise (and for the empty payload) a check sequence error. */
  lemma FrameRoundTrip(payload: Bytes)
    ensures DecodeFrame(EncodeFrame(payload)) ==
            if payload != [] && StuffedZeros(BytesToBits(AppendFcs(payload))) % 8 == 0 then Ok(payload)
            else Err("Bad AX.25 FCS")
  {
    var k := Padding(|Body(payload)|);
    PackedBits(Body(payload), k);
    Verdict(payload, k);
    PaddingIs(payload);
    DecodePadded(payload, AppendFcs(payload), Body(payload), BitsToBytes(Body(payload)), k);
  }

  lemma PaddingIs(payload: Bytes)
    ensures Padding(|Body(payload)|) == 0 <==> StuffedZeros(BytesToBits(AppendFcs(payload))) % 8 == 0
  {
    NoPadding(8 * |AppendFcs(payload)|, StuffedZeros(BytesToBits(AppendFcs(payload))));
  }

  /** `f` with a zero octet behind it if there was any padding. */
  function WithPad(f: Bytes, k: nat): Bytes { if k == 0 then f else f + [0] }

  /** Only without padding does the frame pass, and then it gives its payload. */
  ghost predicate Passes(payload: Bytes, raw: Bytes, k: nat) {
    (VerifyFcs(raw) <==> payload != [] && k == 0) && (VerifyFcs(raw) ==> raw[..|raw| - 2] == payload)
  }

  lemma DecodePadded(payload: Bytes, f: Bytes, body: seq<bool>, octets: Bytes, k: nat)
    requires body == Stuff(BytesToBits(f), 0) && k < 8 && |body| >= 16
    requires BytesToBits(octets) == body + Zeros(k)
    requires Passes(payload, WithPad(f, k), k)
    ensures DecodeFrame([FLAG_OCTET] + octets + [FLAG_OCTET]) ==
            if payload != [] && k == 0 then Ok(payload) else Err("Bad AX.25 FCS")
  {
    TwoAtLeast(octets, body, k);
    DecodeOctets(f, octets, k);
  }

  lemma TwoAtLeast(octets: Bytes, bits: seq<bool>, k: nat)
    requires BytesToBits(octets) == bits + Zeros(k) && |bits| >= 16
    ensures |octets| >= 2
  {
    assert |BytesToBits(octets)| >= 16;
  }

  lemma Verdict(payload: Bytes, k: nat)
    requires k == Padding(|Body(payload)|)
    ensures Passes(payload, WithPad(AppendFcs(payload), k), k)
  {
    if |payload| == 0 {
      EmptyFrame(payload);
    } else if k == 0 {
      AppendedVerifies(payload);
    } else {
      PaddedIsBad(payload);
    }
  }

  lemma {:induction false} StuffZeros(n: nat)
    ensures Stuff(Zeros(n), 0) == Zeros(n)
  {
    if n > 0 {
      assert Zeros(n)[1..] == Zeros(n - 1);
      StuffZeros(n - 1);
      assert Zeros(n) == [false] + Zeros(n - 1);
    }
  }

  /** The empty payload has sixteen zeros for a check sequence, and a frame of two octets is too short. */
  lemma EmptyFrame(payload: Bytes)
    requires |payload| == 0
    ensures Padding(|Body(payload)|) == 0 && !VerifyFcs(AppendFcs(payload))
  {
    AppendFcsBits(payload);
    EmptyCheck(payload, |Init()|);
    StuffZeros(|Init()|);
  }

  lemma EmptyCheck(payload: Bytes, n: nat)
    requires |payload| == 0 && n == 16
    ensures BytesToBits(payload) + Fcs(payload) == Zeros(n)
  {
    assert Run(Init(), BytesToBits(payload)) == Init();
  }

  // ---- a payload that does not come back --------------------------------------------------------------

  function Ones(n: nat): seq<bool> { seq(n, i => true) }

  /** The initial register with `k` zeros shifted in. */
  function ShiftedIn(k: nat): Register { seq(16, i => i + k < 16) }

  /** Ones fed to a register of ones touch no tap. */
  lemma {:induction false} OnesShiftIn(k: nat, n: nat)
    requires k + n <= 16
    ensures Run(ShiftedIn(k), Ones(n)) == ShiftedIn(k + n)
    decreases n
  {
    if n > 0 {
      assert Step(ShiftedIn(k), true) == ShiftedIn(k + 1);
      assert Ones(n)[1..] == Ones(n - 1);
      OnesShiftIn(k + 1, n - 1);
    }
  }

  lemma {:induction false} StuffConcat(xs: seq<bool>, ys: seq<bool>, ones: nat)
    requires ones < 5
    ensures |Stuff(xs + ys, ones)| == |Stuff(xs, ones)| + |Stuff(ys, EndOnes(xs, ones))|
    decreases |xs|
  {
    if xs == [] {
      assert xs + ys == ys;
    } else {
      assert (xs + ys)[1..] == xs[1..] + ys;
      StuffConcat(xs[1..], ys, if !xs[0] || ones == 4 then 0 else ones + 1);
    }
  }

  /** Every fifth 1 gets a zero behind it. */
  lemma {:induction false} OnesStuffed(n: nat, ones: nat)
    requires ones < 5
    ensures |Stuff(Ones(n), ones)| == n + (n + ones) / 5
    decreases n
  {
    if n > 0 {
      assert Ones(n)[1..] == Ones(n - 1);
      OnesStuffed(n - 1, if ones == 4 then 0 else ones + 1);
    }
  }

  lemma {:induction false} EndsInZero(xs: seq<bool>, ones: nat)
    requires ones < 5 && xs != [] && !xs[|xs| - 1]
    ensures EndOnes(xs, ones) == 0
    decreases |xs|
  {
    if |xs| > 1 { EndsInZero(xs[1..], if !xs[0] || ones == 4 then 0 else ones + 1); }
  }

  lemma {:induction false} ZerosStuffed(n: nat, ones: nat)
    requires ones < 5
    ensures |Stuff(Zeros(n), ones)| == n
    decreases n
  {
    if n > 0 {
      assert Zeros(n)[1..] == Zeros(n - 1);
      ZerosStuffed(n - 1, 0);
    }
  }

  lemma OctetOfOnes(b: byte)
    requires b == 0xFF
    ensures ToBits(b, 8) == Ones(8)
  {
    assert ToBits(1, 1) == [true];
    assert ToBits(3, 2) == [true] + ToBits(1, 1);
    assert ToBits(7, 3) == [true] + ToBits(3, 2);
    assert ToBits(15, 4) == [true] + ToBits(7, 3);
    assert ToBits(31, 5) == [true] + ToBits(15, 4);
    assert ToBits(63, 6) == [true] + ToBits(31, 5);
    assert ToBits(127, 7) == [true] + ToBits(63, 6);
    assert ToBits(b, 8) == [true] + ToBits(127, 7);
  }

  lemma OnesFrame(payload: Bytes, n: nat)
    requires |payload| == 1 && payload[0] == 0xFF && n == 8
    ensures BytesToBits(AppendFcs(payload)) == Ones(n) + (Zeros(n) + Ones(n))
  {
    AppendFcsBits(payload);
    assert payload == [payload[0]];
    OneOctet(payload[0]);
    OctetOfOnes(payload[0]);
    assert Init() == ShiftedIn(0);
    OnesShiftIn(0, n);
    assert Complement(ShiftedIn(n)) == Zeros(n) + Ones(n);
  }

  lemma OnesZerosOnes(n: nat)
    requires n > 0
    ensures |Stuff(Ones(n) + (Zeros(n) + Ones(n)), 0)| == 3 * n + n / 5 + n / 5
  {
    StuffConcat(Ones(n), Zeros(n) + Ones(n), 0);
    OnesStuffed(n, 0);
    StuffConcat(Zeros(n), Ones(n), EndOnes(Ones(n), 0));
    ZerosStuffed(n, EndOnes(Ones(n), 0));
    EndsInZero(Zeros(n), EndOnes(Ones(n), 0));
  }

  /** The single octet 0xFF has the check sequence 0x00 0xFF, so its frame gets two stuffed zeros, and does not
      come back. */
  lemma OnesDoNotReturn(payload: Bytes)
    requires |payload| == 1 && payload[0] == 0xFF
    ensures StuffedZeros(BytesToBits(AppendFcs(payload))) == 2
    ensures DecodeFrame(EncodeFrame(payload)) == Err("Bad AX.25 FCS")
  {
    OnesFrame(payload, 8);
    OnesZerosOnes(8);
    FrameRoundTrip(payload);
  }
}
