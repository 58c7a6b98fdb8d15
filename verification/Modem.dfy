/** The Bell 202 modem above its tones: the modulator turns a payload into samples, the demodulator
    turns samples into payloads. Which tone a window of samples holds is left to an oracle. */
module Modem {
  import opened Common
  import opened Bits
  import opened BitLoops
  import opened CrcLoop
  import opened Hdlc
  import opened HdlcFrames
  import opened SymbolClock

  type Sample = real

  /** Decides which tone a window holds; `true` is mark. */
  type Classifier = seq<Sample> -> bool

  /** The i-th sample of a symbol, given the levels up to and with that symbol (the oscillator keeps its
      phase, so earlier ones matter). */
  type Waveform = (seq<bool>, nat) -> Sample

  // ---- the modulator ----------------------------------------------------------------------------------

  function FlagOctets(n: nat): Bytes { seq(n, i => FLAG_OCTET) }

  function AirOctets(payload: Bytes, preamble: nat, postamble: nat): Bytes {
    FlagOctets(preamble) + EncodeFrame(payload) + FlagOctets(postamble)
  }

  function AirLevels(payload: Bytes, preamble: nat, postamble: nat): seq<bool> {
    NrziEncode(BytesToBits(AirOctets(payload, preamble, postamble)), true)
  }

  function Window(wave: Waveform, levels: seq<bool>, n: nat): seq<Sample> {
    seq(n, i requires 0 <= i < n => wave(levels, i))
  }

  /** The windows of the symbols from `k` on. */
  function Modulated(wave: Waveform, levels: seq<bool>, k: nat, frac: real, per: real): seq<seq<Sample>>
    requires k <= |levels|
    decreases |levels| - k
  {
    if k == |levels| then []
    else
      [Window(wave, levels[..k + 1], Len(frac, per))] + Modulated(wave, levels, k + 1, Next(frac, per), per)
  }

  /** The whole transmission. */
  function Audio(wave: Waveform, levels: seq<bool>, per: real): seq<Sample> {
    Flat(Modulated(wave, levels, 0, 0.0, per))
  }

  method LevelsToPcm(levels: seq<bool>, rate: nat, baud: nat, wave: Waveform) returns (out: seq<Sample>)
    requires rate > 0 && baud > 0
    ensures out == Audio(wave, levels, PerSymbol(rate, baud))
  {
    var samplesPerSymbol := PerSymbol(rate, baud);
    var frac := 0.0;
    out := [];
    for k := 0 to |levels|
      invariant out + Flat(Modulated(wave, levels, k, frac, samplesPerSymbol)) == Audio(wave, levels, samplesPerSymbol)
    {
      ghost var before, was := out, frac;
      frac := frac + samplesPerSymbol;
      var count := Truncate(frac);
      if count <= 0 {
        count := 1;
      }
      frac := frac - count as real;
      out := AppendSymbol(out, wave, levels[..k + 1], count);
      OneSymbol(wave, levels, k, was, samplesPerSymbol, before);
    }
  }

  /** The inner loop, over the samples of one symbol. */
  method AppendSymbol(samples: seq<Sample>, wave: Waveform, levels: seq<bool>, count: nat) returns (out: seq<Sample>)
    ensures out == samples + Window(wave, levels, count)
  {
    out := samples;
    for i := 0 to count
      invariant out == samples + Window(wave, levels, i)
    {
      out := out + [wave(levels, i)];
    }
  }

  lemma OneSymbol(wave: Waveform, levels: seq<bool>, k: nat, frac: real, per: real, before: seq<Sample>)
    requires k < |levels|
    ensures before + Flat(Modulated(wave, levels, k, frac, per)) ==
            before + Window(wave, levels[..k + 1], Len(frac, per)) + Flat(Modulated(wave, levels, k + 1, Next(frac, per), per))
  {
    var later := Modulated(wave, levels, k + 1, Next(frac, per), per);
    assert Modulated(wave, levels, k, frac, per)[1..] == later;
  }

  /** The preamble and postamble have at least one flag each. */
  method ModulateAx25Frame(payload: Bytes, preambleFlags: int, postambleFlags: int,
                           rate: nat, baud: nat, wave: Waveform) returns (out: seq<Sample>)
    requires rate > 0 && baud > 0
    ensures var preamble := if preambleFlags < 1 then 1 else preambleFlags;
            var postamble := if postambleFlags < 1 then 1 else postambleFlags;
            out == Audio(wave, AirLevels(payload, preamble, postamble), PerSymbol(rate, baud))
  {
    var framed := EncodeHdlcFrame(payload);
    var preamble := FlagOctets(if preambleFlags < 1 then 1 else preambleFlags);
    var postamble := FlagOctets(if postambleFlags < 1 then 1 else postambleFlags);
    var bits := BytesToBitsLsb(preamble + framed + postamble);
    var levels := NrziEncodeBits(bits, true);
    out := LevelsToPcm(levels, rate, baud, wave);
  }

  method EncodeHdlcFrame(payload: Bytes) returns (octets: Bytes)
    ensures octets == EncodeFrame(payload)
  {
    var frame := AppendFcsOctets(payload);
    var bits := BytesToBitsLsb(frame);
    var stuffed := BitStuff(bits);
    var body := BitsToBytesLsb(stuffed);
    octets := [FLAG_OCTET] + body + [FLAG_OCTET];
  }

  // ---- the demodulator --------------------------------------------------------------------------------

  /** Its state: samples not yet cut into symbols, the clock, the last level, bits left over. */
  datatype Demod = Demod(buf: seq<Sample>, frac: real, last: bool, bits: seq<bool>)

  function Fresh(): Demod { Demod([], 0.0, true, []) }

  function Levels(classify: Classifier, windows: seq<seq<Sample>>): (r: seq<bool>)
    ensures |r| == |windows|
  {
    seq(|windows|, i requires 0 <= i < |windows| => classify(windows[i]))
  }

  datatype Heard = Heard(state: Demod, payloads: seq<Bytes>)

  /** One call with more samples. */
  function Hear(d: Demod, samples: seq<Sample>, per: real, classify: Classifier): Heard {
    var cut := CutWindows(d.buf + samples, d.frac, per);
    Decoded(d, cut, Levels(classify, cut.windows))
  }

  function Decoded(d: Demod, cut: Windows<Sample>, levels: seq<bool>): Heard {
    if levels == [] then Heard(Demod(cut.rest, cut.frac, d.last, d.bits), [])
    else
      var found := Extract(d.bits + NrziDecode(levels, d.last));
      Heard(Demod(cut.rest, cut.frac, levels[|levels| - 1], found.rest), found.payloads)
  }

  /** All payloads from many calls. */
  function HearAll(d: Demod, chunks: seq<seq<Sample>>, per: real, classify: Classifier): seq<Bytes>
    decreases |chunks|
  {
    if chunks == [] then []
    else
      var now := Hear(d, chunks[0], per, classify);
      now.payloads + HearAll(now.state, chunks[1..], per, classify)
  }

  /** More windows in front. */
  function Onto(windows: seq<seq<Sample>>, cut: Windows<Sample>): Windows<Sample> {
    Windows(windows + cut.windows, cut.rest, cut.frac)
  }

  lemma OntoNone(cut: Windows<Sample>)
    ensures cut == Onto([], cut)
  {
    assert [] + cut.windows == cut.windows;
  }

  lemma CutOne(windows: seq<seq<Sample>>, buf: seq<Sample>, frac: real, per: real)
    requires |buf| >= Len(frac, per)
    ensures var n := Len(frac, per);
            Onto(windows, CutWindows(buf, frac, per)) ==
            Onto(windows + [buf[..n]], CutWindows(buf[n..], Next(frac, per), per))
  {
    var n := Len(frac, per);
    var later := CutWindows(buf[n..], Next(frac, per), per);
    assert windows + ([buf[..n]] + later.windows) == windows + [buf[..n]] + later.windows;
  }

  lemma CutNone(windows: seq<seq<Sample>>, buf: seq<Sample>, frac: real, per: real)
    requires |buf| < Len(frac, per)
    ensures Onto(windows, CutWindows(buf, frac, per)) == Windows(windows, buf, Next(frac, per))
  {
    assert windows + [] == windows;
  }

  lemma LevelsSnoc(classify: Classifier, windows: seq<seq<Sample>>, window: seq<Sample>)
    ensures Levels(classify, windows + [window]) == Levels(classify, windows) + [classify(window)]
  {}

  lemma OneLevel(bits: seq<bool>, levels: seq<bool>, k: nat, last: bool)
    requires k < |levels|
    ensures bits + [levels[k] == last] + NrziDecode(levels[k + 1..], levels[k]) == bits + NrziDecode(levels[k..], last)
  {
    assert levels[k..][0] == levels[k] && levels[k..][1..] == levels[k + 1..];
  }

  class Bell202Demodulator {
    const samplesPerSymbol: real
    const classify: Classifier
    var symFrac: real
    var sampleBuf: seq<Sample>
    var lastLevel: bool
    var rawBits: seq<bool>

    constructor (rate: nat, baud: nat, classify: Classifier)
      requires rate > 0 && baud > 0
      ensures View() == Fresh() && samplesPerSymbol == PerSymbol(rate, baud) && this.classify == classify
    {
      samplesPerSymbol := PerSymbol(rate, baud);
      this.classify := classify;
      symFrac, sampleBuf, lastLevel, rawBits := 0.0, [], true, [];
    }

    ghost function View(): Demod
      reads this
    {
      Demod(sampleBuf, symFrac, lastLevel, rawBits)
    }

    method NextSymbolLen() returns (n: nat)
      modifies this`symFrac
      ensures n == Len(old(symFrac), samplesPerSymbol) && symFrac == Next(old(symFrac), samplesPerSymbol)
    {
      symFrac := symFrac + samplesPerSymbol;
      var count := Truncate(symFrac);
      if count <= 0 {
        count := 1;
      }
      n := count;
      symFrac := symFrac - n as real;
    }

    /** Cuts as many symbols off the buffer as it holds. */
    method CutSymbols() returns (levels: seq<bool>)
      modifies this`symFrac, this`sampleBuf
      ensures var cut := CutWindows(old(sampleBuf), old(symFrac), samplesPerSymbol);
              levels == Levels(classify, cut.windows) && sampleBuf == cut.rest && symFrac == cut.frac
    {
      levels := [];
      ghost var windows: seq<seq<Sample>> := [];
      ghost var all := CutWindows(sampleBuf, symFrac, samplesPerSymbol);
      OntoNone(all);
      while true
        invariant levels == Levels(classify, windows)
        invariant all == Onto(windows, CutWindows(sampleBuf, symFrac, samplesPerSymbol))
        decreases |sampleBuf|
      {
        ghost var frac := symFrac;
        var n := NextSymbolLen();
        if |sampleBuf| < n {
          CutNone(windows, sampleBuf, frac, samplesPerSymbol);
          break;
        }
        CutOne(windows, sampleBuf, frac, samplesPerSymbol);
        var window := sampleBuf[..n];
        sampleBuf := sampleBuf[n..];
        LevelsSnoc(classify, windows, window);
        levels := levels + [classify(window)];
        windows := windows + [window];
      }
    }

    method FeedSamples(samples: seq<Sample>) returns (payloads: seq<Bytes>)
      modifies this
      ensures Heard(View(), payloads) == Hear(old(View()), samples, samplesPerSymbol, classify)
    {
      sampleBuf := sampleBuf + samples;
      var levels := CutSymbols();
      if levels == [] {
        return [];
      }
      payloads := DecodeLevels(levels);
    }

    method DecodeLevels(levels: seq<bool>) returns (payloads: seq<Bytes>)
      requires levels != []
      modifies this`lastLevel, this`rawBits
      ensures var found := Extract(old(rawBits) + NrziDecode(levels, old(lastLevel)));
              payloads == found.payloads && rawBits == found.rest && lastLevel == levels[|levels| - 1]
    {
      AppendBits(levels);
      var remainder;
      payloads, remainder := ExtractHdlcFrames(rawBits);
      rawBits := remainder;
    }

    /** The loop over the levels. */
    method AppendBits(levels: seq<bool>)
      requires levels != []
      modifies this`lastLevel, this`rawBits
      ensures rawBits == old(rawBits) + NrziDecode(levels, old(lastLevel)) && lastLevel == levels[|levels| - 1]
    {
      for k := 0 to |levels|
        invariant rawBits + NrziDecode(levels[k..], lastLevel) == old(rawBits) + NrziDecode(levels, old(lastLevel))
        invariant k > 0 ==> lastLevel == levels[k - 1]
      {
        OneLevel(rawBits, levels, k, lastLevel);
        var bit := levels[k] == lastLevel;
        rawBits := rawBits + [bit];
        lastLevel := levels[k];
      }
      assert rawBits + [] == rawBits;
    }
  }
}
