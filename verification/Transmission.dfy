/** A transmission from end to end: one payload modulated into samples, and a demodulator that tells the
    tones apart correctly. */
module Transmission {
  import opened Common
  import opened Bits
  import opened Crc
  import opened Hdlc
  import opened HdlcStream
  import opened HdlcFrames
  import opened HdlcSound
  import opened SymbolClock
  import opened Modem

  // ---- the bits of a transmission ---------------------------------------------------------------------

  /** What is between the opening and the closing flag of the frame, padding included. */
  function PaddedBody(payload: Bytes): seq<bool> {
    Body(payload) + Zeros(Padding(|Body(payload)|))
  }

  function Empties(n: nat): seq<seq<bool>> { seq(n, i => []) }

  /** The stretches between flags, after the first one. */
  function AirPieces(payload: Bytes, preamble: nat, postamble: nat): seq<seq<bool>> {
    Empties(preamble) + [PaddedBody(payload)] + Empties(postamble)
  }

  lemma FlagBits()
    ensures BytesToBits([FLAG_OCTET]) == Flag()
  {
    OneOctet(FLAG_OCTET);
    FlagOctetBits(FLAG_OCTET);
  }

  lemma FlagOctetBits(b: byte)
    requires b == 0x7E
    ensures ToBits(b, 8) == Flag()
  {
    ZeroBits(1);
    assert ToBits(1, 2) == [true] + ToBits(0, 1);
    assert ToBits(3, 3) == [true] + ToBits(1, 2);
    assert ToBits(7, 4) == [true] + ToBits(3, 3);
    assert ToBits(15, 5) == [true] + ToBits(7, 4);
    assert ToBits(31, 6) == [true] + ToBits(15, 5);
    assert ToBits(63, 7) == [true] + ToBits(31, 6);
    assert ToBits(b, 8) == [false] + ToBits(63, 7);
  }

  lemma MoreEmpties(n: nat)
    requires n > 0
    ensures Framed(Empties(n)) == Flag() + Framed(Empties(n - 1))
  {
    assert Empties(n)[1..] == Empties(n - 1);
    assert [] + Flag() == Flag();
  }

  /** Flags in a row are the bits of so many flag octets. */
  lemma {:induction false} EmptiesAreFlags(n: nat)
    ensures BytesToBits(FlagOctets(n)) == Framed(Empties(n))
  {
    if n > 0 {
      EmptiesAreFlags(n - 1);
      FlagBits();
      assert FlagOctets(n) == [FLAG_OCTET] + FlagOctets(n - 1);
      BytesToBitsConcat([FLAG_OCTET], FlagOctets(n - 1));
      MoreEmpties(n);
    }
  }

  /** Any one of them can be taken to the front. */
  lemma {:induction false} FlagToFront(n: nat)
    ensures Framed(Empties(n)) + Flag() == Flag() + Framed(Empties(n))
  {
    if n > 0 {
      FlagToFront(n - 1);
      MoreEmpties(n);
      assert Flag() + Framed(Empties(n - 1)) + Flag() == Flag() + (Framed(Empties(n - 1)) + Flag());
    }
  }

  lemma FrameBits(payload: Bytes)
    ensures BytesToBits(EncodeFrame(payload)) == Flag() + PaddedBody(payload) + Flag()
  {
    FlagBits();
    var octets := BitsToBytes(Body(payload));
    PackedBits(Body(payload), Padding(|Body(payload)|));
    BytesToBitsConcat([FLAG_OCTET] + octets, [FLAG_OCTET]);
    BytesToBitsConcat([FLAG_OCTET], octets);
  }

  lemma FramedOne(piece: seq<bool>)
    ensures Framed([piece]) == piece + Flag()
  {
    assert [piece][1..] == [];
    assert piece + Flag() + [] == piece + Flag();
  }

  /** The bits on the air are flags with one stretch among them that is not empty. */
  lemma AirBits(payload: Bytes, preamble: nat, postamble: nat)
    ensures BytesToBits(AirOctets(payload, preamble, postamble)) ==
            Flag() + Framed(AirPieces(payload, preamble, postamble))
  {
    var before, after := Framed(Empties(preamble)), Framed(Empties(postamble));
    var body := PaddedBody(payload);
    BytesToBitsConcat(FlagOctets(preamble) + EncodeFrame(payload), FlagOctets(postamble));
    BytesToBitsConcat(FlagOctets(preamble), EncodeFrame(payload));
    EmptiesAreFlags(preamble);
    EmptiesAreFlags(postamble);
    FlagToFront(preamble);
    FrameBits(payload);
    FramedConcat(Empties(preamble) + [body], Empties(postamble));
    FramedConcat(Empties(preamble), [body]);
    FramedOne(body);
    Regroup(before, body, after);
  }

  lemma Regroup(before: seq<bool>, body: seq<bool>, after: seq<bool>)
    requires before + Flag() == Flag() + before
    ensures before + (Flag() + body + Flag()) + after == Flag() + (before + (body + Flag()) + after)
  {
    assert before + (Flag() + body + Flag()) + after == (before + Flag()) + (body + Flag() + after);
    assert Flag() + (before + (body + Flag()) + after) == (Flag() + before) + (body + Flag() + after);
  }

  // ---- what the stretches decode to ---------------------------------------------------------------------

  /** Whether the stuffed zeros of a frame fill whole octets. */
  predicate WholeOctets(payload: Bytes) { StuffedZeros(BytesToBits(AppendFcs(payload))) % 8 == 0 }

  lemma PayloadOfPadded(payload: Bytes)
    ensures Payload(PaddedBody(payload)) == if payload != [] && WholeOctets(payload) then Some(payload) else None
  {
    var f, k := AppendFcs(payload), Padding(|Body(payload)|);
    Verdict(payload, k);
    PaddingIs(payload);
    PayloadOfBits(payload, f, Body(payload), k);
  }

  lemma PayloadOfBits(payload: Bytes, f: Bytes, body: seq<bool>, k: nat)
    requires body == Stuff(BytesToBits(f), 0) && k < 8 && |body| > 0
    requires Passes(payload, WithPad(f, k), k)
    ensures Payload(body + Zeros(k)) == if payload != [] && k == 0 then Some(payload) else None
  {
    UnpackedBody(f, k);
  }

  lemma {:induction false} GatherEmpties(n: nat)
    ensures Gather(Payload, Empties(n)) == []
  {
    if n > 0 {
      GatherEmpties(n - 1);
      assert Empties(n)[1..] == Empties(n - 1);
    }
  }

  lemma GatherOne(decode: Decoder, piece: seq<bool>)
    ensures Gather(decode, [piece]) == if decode(piece).Some? then [decode(piece).value] else []
  {
    assert [piece][1..] == [];
    assert Gather(decode, []) == [];
  }

  /** What ought to come out. */
  function Expected(payload: Bytes): seq<Bytes> {
    if payload != [] && WholeOctets(payload) then [payload] else []
  }

  lemma GatherAir(payload: Bytes, preamble: nat, postamble: nat)
    ensures Gather(Payload, AirPieces(payload, preamble, postamble)) == Expected(payload)
  {
    var body := PaddedBody(payload);
    GatherConcat(Payload, Empties(preamble) + [body], Empties(postamble));
    GatherConcat(Payload, Empties(preamble), [body]);
    GatherEmpties(preamble);
    GatherEmpties(postamble);
    GatherOne(Payload, body);
    PayloadOfPadded(payload);
  }

  lemma AirQuiet(payload: Bytes, preamble: nat, postamble: nat)
    ensures Quiet(AirPieces(payload, preamble, postamble))
  {
    PieceRunsOk(Some(payload));
    RunsOkZeros(Body(payload), 0, Padding(|Body(payload)|));
  }

  /** The extractor on the bits of a transmission. */
  lemma AirExtracted(payload: Bytes, preamble: nat, postamble: nat)
    ensures Extract(BytesToBits(AirOctets(payload, preamble, postamble))) == Extracted(Expected(payload), Flag())
  {
    AirBits(payload, preamble, postamble);
    AirQuiet(payload, preamble, postamble);
    AllTried(AirPieces(payload, preamble, postamble));
    GatherAir(payload, preamble, postamble);
  }

  // ---- all samples at once --------------------------------------------------------------------------------

  /** The classifier tells the tone of every window the modulator makes. */
  ghost predicate Recognised(classify: Classifier, wave: Waveform, levels: seq<bool>, per: real) {
    Levels(classify, Modulated(wave, levels, 0, 0.0, per)) == levels
  }

  lemma {:induction false} ModulatedClocked(wave: Waveform, levels: seq<bool>, k: nat, frac: real, per: real)
    requires k <= |levels|
    ensures Clocked(Modulated(wave, levels, k, frac, per), frac, per)
    ensures |Modulated(wave, levels, k, frac, per)| == |levels| - k
    decreases |levels| - k
  {
    if k < |levels| {
      var windows := Modulated(wave, levels, k, frac, per);
      var later := Modulated(wave, levels, k + 1, Next(frac, per), per);
      ModulatedClocked(wave, levels, k + 1, Next(frac, per), per);
      assert FracAfter(frac, per, 0) == frac;
      forall j | 0 <= j < |windows| ensures |windows[j]| == Len(FracAfter(frac, per, j), per) {
        if j > 0 {
          FracShift(frac, per, j - 1);
          assert windows[j] == later[j - 1];
        }
      }
    }
  }

  /** Whatever the rates, a demodulator fed a whole transmission returns its payload exactly when it is
      not empty and the stuffed zeros of its frame fill whole octets, and nothing otherwise. */
  lemma WholeTransmission(payload: Bytes, preamble: nat, postamble: nat, rate: nat, baud: nat,
                          wave: Waveform, classify: Classifier)
    requires rate > 0 && baud > 0
    requires Recognised(classify, wave, AirLevels(payload, preamble, postamble), PerSymbol(rate, baud))
    ensures var per := PerSymbol(rate, baud);
            Hear(Fresh(), Audio(wave, AirLevels(payload, preamble, postamble), per), per, classify).payloads ==
            Expected(payload)
  {
    var per := PerSymbol(rate, baud);
    var levels := AirLevels(payload, preamble, postamble);
    var windows := Modulated(wave, levels, 0, 0.0, per);
    ModulatedClocked(wave, levels, 0, 0.0, per);
    CutClocked(windows, 0.0, per);
    assert [] + Flat(windows) == Flat(windows);
    HearLevels(payload, preamble, postamble, CutWindows(Flat(windows), 0.0, per));
  }

  lemma HearLevels(payload: Bytes, preamble: nat, postamble: nat, cut: Windows<Sample>)
    ensures Decoded(Fresh(), cut, AirLevels(payload, preamble, postamble)).payloads == Expected(payload)
  {
    AirExtracted(payload, preamble, postamble);
    DecodedBits(BytesToBits(AirOctets(payload, preamble, postamble)), cut);
  }

  lemma DecodedBits(bits: seq<bool>, cut: Windows<Sample>)
    requires bits == [] ==> Extract(bits).payloads == []
    ensures Decoded(Fresh(), cut, NrziEncode(bits, true)).payloads == Extract(bits).payloads
  {
    NrziRoundTrip(bits, true);
    NrziLength(bits, true);
    assert [] + bits == bits;
  }

  // ---- samples in chunks ----------------------------------------------------------------------------------

  /** The bits that each call which completes a symbol adds to the raw bits. */
  function BitChunks(buf: seq<Sample>, frac: real, last: bool, chunks: seq<seq<Sample>>, per: real,
                     classify: Classifier): seq<seq<bool>>
    decreases |chunks|
  {
    if chunks == [] then []
    else
      var cut := CutWindows(buf + chunks[0], frac, per);
      var levels := Levels(classify, cut.windows);
      if levels == [] then BitChunks(cut.rest, cut.frac, last, chunks[1..], per, classify)
      else [NrziDecode(levels, last)] + BitChunks(cut.rest, cut.frac, levels[|levels| - 1], chunks[1..], per, classify)
  }

  lemma LevelsConcat(classify: Classifier, xs: seq<seq<Sample>>, ys: seq<seq<Sample>>)
    ensures Levels(classify, xs + ys) == Levels(classify, xs) + Levels(classify, ys)
  {}

  /** Cut in chunks, the same symbols and so the same bits come out as from all samples at once. */
  lemma {:induction false} BitChunksWhole(
      buf: seq<Sample>, last: bool, chunks: seq<seq<Sample>>, per: real, classify: Classifier)
    requires Next(0.0, per) == 0.0 && |buf| < Len(0.0, per)
    ensures Flat(BitChunks(buf, 0.0, last, chunks, per, classify)) ==
            NrziDecode(Levels(classify, CutWindows(buf + Flat(chunks), 0.0, per).windows), last)
    decreases |chunks|
  {
    if chunks == [] {
      assert buf + [] == buf;
    } else {
      var now, later := buf + chunks[0], Flat(chunks[1..]);
      var first := CutWindows(now, 0.0, per);
      var levels := Levels(classify, first.windows);
      CutLeavesLittle(now, per);
      CutEndsEven(now, per);
      CutTwice(now, later, per);
      assert buf + Flat(chunks) == now + later;
      var second := CutWindows(first.rest + later, 0.0, per);
      LevelsConcat(classify, first.windows, second.windows);
      NrziDecodeConcat(levels, Levels(classify, second.windows), last);
      var next := if levels == [] then last else levels[|levels| - 1];
      BitChunksWhole(first.rest, next, chunks[1..], per, classify);
      FlatBits(buf, 0.0, last, chunks, per, classify);
    }
  }

  lemma FlatBits(buf: seq<Sample>, frac: real, last: bool, chunks: seq<seq<Sample>>, per: real, classify: Classifier)
    requires chunks != []
    ensures var first := CutWindows(buf + chunks[0], frac, per);
            var levels := Levels(classify, first.windows);
            var next := if levels == [] then last else levels[|levels| - 1];
            Flat(BitChunks(buf, frac, last, chunks, per, classify)) ==
            NrziDecode(levels, last) + Flat(BitChunks(first.rest, first.frac, next, chunks[1..], per, classify))
  {
    var first := CutWindows(buf + chunks[0], frac, per);
    var levels := Levels(classify, first.windows);
    if levels == [] {
      var more := Flat(BitChunks(first.rest, first.frac, last, chunks[1..], per, classify));
      assert [] + more == more;
    }
  }

  lemma {:induction false} CutLeavesLittle<T>(buf: seq<T>, per: real)
    requires Next(0.0, per) == 0.0
    ensures |CutWindows(buf, 0.0, per).rest| < Len(0.0, per)
    decreases |buf|
  {
    var n := Len(0.0, per);
    if |buf| >= n { CutLeavesLittle(buf[n..], per); }
  }

  /** The demodulator is the extractor fed with those bits, at any rates. */
  lemma {:induction false} HearIsFeed(d: Demod, chunks: seq<seq<Sample>>, per: real, classify: Classifier)
    ensures HearAll(d, chunks, per, classify) ==
            Feed(Extract, d.bits, BitChunks(d.buf, d.frac, d.last, chunks, per, classify)).payloads
    decreases |chunks|
  {
    if chunks != [] {
      var cut := CutWindows(d.buf + chunks[0], d.frac, per);
      var now := Hear(d, chunks[0], per, classify);
      HearIsFeed(now.state, chunks[1..], per, classify);
      OneMoreCall(d, cut, Levels(classify, cut.windows),
                  BitChunks(now.state.buf, now.state.frac, now.state.last, chunks[1..], per, classify));
    }
  }

  lemma OneMoreCall(d: Demod, cut: Windows<Sample>, levels: seq<bool>, later: seq<seq<bool>>)
    ensures var now := Decoded(d, cut, levels);
            Feed(Extract, d.bits, if levels == [] then later else [NrziDecode(levels, d.last)] + later).payloads ==
            now.payloads + Feed(Extract, now.state.bits, later).payloads
  {
    if levels != [] { FeedFirst(d.bits, NrziDecode(levels, d.last), later); }
  }

  lemma FeedFirst(rest: seq<bool>, first: seq<bool>, chunks: seq<seq<bool>>)
    ensures Feed(Extract, rest, [first] + chunks).payloads ==
            Extract(rest + first).payloads + Feed(Extract, Extract(rest + first).rest, chunks).payloads
  {
    assert ([first] + chunks)[1..] == chunks;
  }

  /** Whatever is heard, at any rates and in any chunks: a payload lies between two flags of the demodulated
      bits, stuffed and with its check sequence. */
  lemma NothingElseHeard(chunks: seq<seq<Sample>>, per: real, classify: Classifier, p: Bytes)
    requires p in HearAll(Fresh(), chunks, per, classify)
    ensures FlagsAround(Flat(BitChunks([], 0.0, true, chunks, per, classify)), p)
  {
    HearIsFeed(Fresh(), chunks, per, classify);
    NothingElse(BitChunks([], 0.0, true, chunks, per, classify), p);
  }

  /** When the baud rate divides the sample rate, the samples may be handed over in any chunks. */
  lemma ChunkedTransmission(payload: Bytes, preamble: nat, postamble: nat, rate: nat, baud: nat,
                            wave: Waveform, classify: Classifier, chunks: seq<seq<Sample>>)
    requires rate >= baud > 0 && Divides(rate, baud)
    requires |PaddedBody(payload)| + 15 <= MAX_REMAINDER_BITS
    requires Recognised(classify, wave, AirLevels(payload, preamble, postamble), PerSymbol(rate, baud))
    requires Flat(chunks) == Audio(wave, AirLevels(payload, preamble, postamble), PerSymbol(rate, baud))
    ensures HearAll(Fresh(), chunks, PerSymbol(rate, baud), classify) == Expected(payload)
  {
    var per := PerSymbol(rate, baud);
    WholeSymbols(rate, baud);
    HearIsFeed(Fresh(), chunks, per, classify);
    NrziRoundTrip(BytesToBits(AirOctets(payload, preamble, postamble)), true);
    ChunksCarry(AirLevels(payload, preamble, postamble), per, wave, classify, chunks);
    AirInChunks(payload, preamble, postamble, BitChunks([], 0.0, true, chunks, per, classify));
  }

  /** Together the chunks carry the bits of the levels. */
  lemma ChunksCarry(levels: seq<bool>, per: real, wave: Waveform, classify: Classifier, chunks: seq<seq<Sample>>)
    requires Next(0.0, per) == 0.0 && Len(0.0, per) > 0
    requires Recognised(classify, wave, levels, per) && Flat(chunks) == Audio(wave, levels, per)
    ensures Flat(BitChunks([], 0.0, true, chunks, per, classify)) == NrziDecode(levels, true)
  {
    BitChunksWhole([], true, chunks, per, classify);
    ModulatedClocked(wave, levels, 0, 0.0, per);
    CutClocked(Modulated(wave, levels, 0, 0.0, per), 0.0, per);
    assert [] + Flat(chunks) == Flat(chunks);
  }

  lemma AirInChunks(payload: Bytes, preamble: nat, postamble: nat, bits: seq<seq<bool>>)
    requires |PaddedBody(payload)| + 15 <= MAX_REMAINDER_BITS
    requires Flat(bits) == BytesToBits(AirOctets(payload, preamble, postamble))
    ensures Feed(Extract, [], bits).payloads == Expected(payload)
  {
    AirBits(payload, preamble, postamble);
    AirQuiet(payload, preamble, postamble);
    AnyChunksTried(AirPieces(payload, preamble, postamble), bits);
    GatherAir(payload, preamble, postamble);
  }
}
