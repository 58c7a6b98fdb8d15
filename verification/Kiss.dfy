/** KISS framing of AX.25 data for a serial TNC: FEND, a type octet, escaped data, FEND. The decoder
    consumes complete frames from the front of a buffer. */
module Kiss {
  import opened Common

  const FEND: byte := 0xC0
  const FESC: byte := 0xDB
  const TFEND: byte := 0xDC
  const TFESC: byte := 0xDD

  datatype Frame = Frame(port: byte, cmd: byte, data: Bytes)

  // ---- escaping ---------------------------------------------------------------------------------------

  function Escape(data: Bytes): Bytes {
    if data == [] then []
    else
      (if data[0] == FEND then [FESC, TFEND] else if data[0] == FESC then [FESC, TFESC] else [data[0]]) + Escape(data[1..])
  }

  function Unescape(raw: Bytes): Option<Bytes> {
    if raw == [] then Some([])
    else if raw[0] == FESC then
      if |raw| == 1 then None
      else if raw[1] == TFEND then Before(FEND, Unescape(raw[2..]))
      else if raw[1] == TFESC then Before(FESC, Unescape(raw[2..]))
      else None
    else if raw[0] == FEND then None
    else Before(raw[0], Unescape(raw[1..]))
  }

  function Before(b: byte, rest: Option<Bytes>): Option<Bytes> {
    if rest.None? then None else Some([b] + rest.value)
  }

  /** Escaping loses nothing and leaves no FEND. */
  lemma {:induction false} UnescapeEscape(data: Bytes)
    ensures Unescape(Escape(data)) == Some(data)
    ensures FEND !in Escape(data)
    decreases |data|
  {
    if data != [] {
      var raw, later := Escape(data), Escape(data[1..]);
      UnescapeEscape(data[1..]);
      assert data == [data[0]] + data[1..];
      if data[0] == FEND || data[0] == FESC {
        assert raw[2..] == later;
      } else {
        assert raw[1..] == later;
      }
    }
  }

  /** And only escaped data can be unescaped. */
  lemma {:induction false} EscapeUnescape(raw: Bytes)
    requires Unescape(raw).Some?
    ensures Escape(Unescape(raw).value) == raw
    decreases |raw|
  {
    if raw != [] {
      var k := if raw[0] == FESC then 2 else 1;
      EscapeUnescape(raw[k..]);
      var data := Unescape(raw).value;
      assert data[1..] == Unescape(raw[k..]).value;
      assert raw == raw[..k] + raw[k..];
    }
  }

  // ---- encoding and decoding ----------------------------------------------------------------------------

  function TypeOctet(port: byte, cmd: byte): byte { ((port & 0x0F) << 4) | (cmd & 0x0F) }

  function Encode(f: Frame): Bytes {
    [FEND, TypeOctet(f.port, f.cmd)] + Escape(f.data) + [FEND]
  }

  /** The index of the first FEND, or the length. */
  function Until(buf: Bytes): (r: nat)
    ensures r <= |buf|
    ensures FEND !in buf[..r]
    ensures r < |buf| ==> buf[r] == FEND
  {
    if buf == [] || buf[0] == FEND then 0
    else
      assert buf[..1 + Until(buf[1..])] == [buf[0]] + buf[1..][..Until(buf[1..])];
      1 + Until(buf[1..])
  }

  /** How many FENDs come first. */
  function Leading(buf: Bytes): (r: nat)
    ensures r <= |buf|
    ensures r < |buf| ==> buf[r] != FEND
  {
    if buf == [] || buf[0] != FEND then 0 else 1 + Leading(buf[1..])
  }

  /** The stretches between FENDs that are complete, and what stays in the buffer. */
  datatype Cut = Cut(raws: seq<Bytes>, rest: Bytes)

  function Onto(raws: seq<Bytes>, cut: Cut): Cut { Cut(raws + cut.raws, cut.rest) }

  function Split(buf: Bytes): Cut
    decreases |buf|
  {
    var start := Until(buf);
    if start == |buf| then Cut([], buf)
    else
      var body := buf[start..][Leading(buf[start..])..];
      var end := Until(body);
      if end == |body| then Cut([], body) else Onto([body[..end]], Split(body[end + 1..]))
  }

  /** One stretch decoded; nothing if an escape is wrong. */
  function Read(raw: Bytes): seq<Frame> {
    if raw == [] || Unescape(raw[1..]).None? then []
    else [Frame((raw[0] >> 4) & 0x0F, raw[0] & 0x0F, Unescape(raw[1..]).value)]
  }

  function ReadAll(raws: seq<Bytes>): seq<Frame> {
    if raws == [] then [] else Read(raws[0]) + ReadAll(raws[1..])
  }

  datatype Decoded = Decoded(frames: seq<Frame>, rest: Bytes)

  /** All complete frames, and what stays in the buffer. */
  function Decode(buf: Bytes): Decoded {
    var cut := Split(buf);
    Decoded(ReadAll(cut.raws), cut.rest)
  }

  lemma {:induction false} ReadAllConcat(xs: seq<Bytes>, ys: seq<Bytes>)
    ensures ReadAll(xs + ys) == ReadAll(xs) + ReadAll(ys)
    decreases |xs|
  {
    if xs == [] {
      assert xs + ys == ys;
    } else {
      assert (xs + ys)[1..] == xs[1..] + ys;
      ReadAllConcat(xs[1..], ys);
    }
  }

  lemma ReadOne(raw: Bytes)
    ensures ReadAll([raw]) == Read(raw)
  {
    assert [raw][1..] == [];
    assert Read(raw) + [] == Read(raw);
  }

  // ---- one buffer, many frames --------------------------------------------------------------------------

  function Fends(n: nat): Bytes { seq(n, i => FEND) }

  /** Frames as sent, with extra FENDs in front of each. */
  function Stream(frames: seq<Frame>, gaps: seq<nat>): Bytes
    requires |gaps| == |frames|
  {
    if frames == [] then [] else Fends(gaps[0]) + Encode(frames[0]) + Stream(frames[1..], gaps[1..])
  }

  /** Port and command are the nibbles they are sent as, and the type octet is not a FEND. */
  predicate Plain(f: Frame) {
    f.port < 16 && f.cmd < 16 && TypeOctet(f.port, f.cmd) != FEND
  }

  lemma TypeNibbles(port: byte, cmd: byte)
    requires port < 16 && cmd < 16
    ensures (TypeOctet(port, cmd) >> 4) & 0x0F == port && TypeOctet(port, cmd) & 0x0F == cmd
  {}

  /** Only port 12 with command 0 makes a FEND of the type octet. */
  lemma TypeIsFend(port: byte, cmd: byte)
    requires port < 16 && cmd < 16
    ensures TypeOctet(port, cmd) == FEND <==> port == 12 && cmd == 0
  {}

  lemma {:induction false} LeadingFends(n: nat, rest: Bytes)
    requires rest != [] && rest[0] != FEND
    ensures Leading(Fends(n) + rest) == n && (Fends(n) + rest)[n..] == rest
    decreases n
  {
    if n == 0 {
      assert Fends(0) + rest == rest;
    } else {
      assert (Fends(n) + rest)[1..] == Fends(n - 1) + rest;
      LeadingFends(n - 1, rest);
    }
  }

  lemma {:induction false} UntilFend(raw: Bytes, rest: Bytes)
    requires FEND !in raw
    ensures Until(raw + [FEND] + rest) == |raw|
    decreases |raw|
  {
    if raw == [] {
      assert (raw + [FEND] + rest)[0] == FEND;
    } else {
      assert (raw + [FEND] + rest)[1..] == raw[1..] + [FEND] + rest;
      UntilFend(raw[1..], rest);
    }
  }

  /** After any number of FENDs, the stretch up to the next one is cut off and the rest follows. */
  lemma SplitStretch(n: nat, raw: Bytes, rest: Bytes)
    requires n > 0 && raw != [] && FEND !in raw
    ensures Split(Fends(n) + (raw + [FEND] + rest)) == Onto([raw], Split(rest))
  {
    var body := raw + [FEND] + rest;
    var buf := Fends(n) + body;
    assert buf[0] == FEND && buf[0..] == buf;
    LeadingFends(n, body);
    UntilFend(raw, rest);
    assert body[..|raw|] == raw && body[|raw| + 1..] == rest;
  }

  /** A frame without its FENDs. */
  function Raw(f: Frame): Bytes { [TypeOctet(f.port, f.cmd)] + Escape(f.data) }

  function Raws(frames: seq<Frame>): seq<Bytes> {
    if frames == [] then [] else [Raw(frames[0])] + Raws(frames[1..])
  }

  lemma RawRead(f: Frame)
    requires Plain(f)
    ensures FEND !in Raw(f) && Read(Raw(f)) == [f]
  {
    UnescapeEscape(f.data);
    TypeNibbles(f.port, f.cmd);
    assert Raw(f)[1..] == Escape(f.data);
  }

  lemma Regroup(n: nat, f: Frame, rest: Bytes)
    ensures Fends(n) + Encode(f) + rest == Fends(n + 1) + (Raw(f) + [FEND] + rest)
  {}

  lemma {:induction false} StreamSplit(frames: seq<Frame>, gaps: seq<nat>)
    requires |gaps| == |frames| && forall i :: 0 <= i < |frames| ==> Plain(frames[i])
    ensures Split(Stream(frames, gaps)) == Cut(Raws(frames), [])
    decreases |frames|
  {
    if frames != [] {
      StreamSplit(frames[1..], gaps[1..]);
      RawRead(frames[0]);
      Regroup(gaps[0], frames[0], Stream(frames[1..], gaps[1..]));
      SplitStretch(gaps[0] + 1, Raw(frames[0]), Stream(frames[1..], gaps[1..]));
    }
  }

  lemma {:induction false} RawsRead(frames: seq<Frame>)
    requires forall i :: 0 <= i < |frames| ==> Plain(frames[i])
    ensures ReadAll(Raws(frames)) == frames
    decreases |frames|
  {
    if frames != [] {
      RawsRead(frames[1..]);
      RawRead(frames[0]);
      RawsFirst(frames[0], frames[1..]);
      ReadFirst(Raw(frames[0]), Raws(frames[1..]), [frames[0]], frames[1..]);
      assert frames == [frames[0]] + frames[1..];
    }
  }

  lemma RawsFirst(f: Frame, frames: seq<Frame>)
    ensures Raws([f] + frames) == [Raw(f)] + Raws(frames)
  {
    assert ([f] + frames)[1..] == frames;
  }

  lemma ReadFirst(raw: Bytes, raws: seq<Bytes>, first: seq<Frame>, later: seq<Frame>)
    requires Read(raw) == first && ReadAll(raws) == later
    ensures ReadAll([raw] + raws) == first + later
  {
    assert ([raw] + raws)[1..] == raws;
  }

  /** One buffer with any list of frames, and any extra FENDs between them, yields exactly that list and
      is empty afterwards. */
  lemma StreamDecoded(frames: seq<Frame>, gaps: seq<nat>)
    requires |gaps| == |frames| && forall i :: 0 <= i < |frames| ==> Plain(frames[i])
    ensures Decode(Stream(frames, gaps)) == Decoded(frames, [])
  {
    StreamSplit(frames, gaps);
    RawsRead(frames);
  }

  // ---- several reads ------------------------------------------------------------------------------------

  /** Each chunk is appended to the buffer, and complete frames are taken out. */
  function Feed(buf: Bytes, chunks: seq<Bytes>): Decoded
    decreases |chunks|
  {
    if chunks == [] then Decoded([], buf)
    else
      var now := Decode(buf + chunks[0]);
      var later := Feed(now.rest, chunks[1..]);
      Decoded(now.frames + later.frames, later.rest)
  }

  /** Chunks that end where frames end do no harm. */
  lemma {:induction false} SplitAtFrames(parts: seq<seq<Frame>>, gaps: seq<seq<nat>>, chunks: seq<Bytes>)
    requires |parts| == |gaps| == |chunks|
    requires forall k :: 0 <= k < |parts| ==> |gaps[k]| == |parts[k]| && chunks[k] == Stream(parts[k], gaps[k])
    requires forall k, i :: 0 <= k < |parts| && 0 <= i < |parts[k]| ==> Plain(parts[k][i])
    ensures Feed([], chunks) == Decoded(Flat(parts), [])
    decreases |parts|
  {
    if parts != [] {
      StreamDecoded(parts[0], gaps[0]);
      assert [] + chunks[0] == chunks[0];
      SplitAtFrames(parts[1..], gaps[1..], chunks[1..]);
    }
  }

  // ---- what goes wrong ------------------------------------------------------------------------------------

  lemma {:induction false} AllLeading(n: nat)
    ensures Leading(Fends(n)) == n
  {
    if n > 0 {
      assert Fends(n)[1..] == Fends(n - 1);
      AllLeading(n - 1);
    }
  }

  lemma OnlyFends(n: nat)
    ensures Split(Fends(n)) == Cut([], [])
  {
    if n > 0 {
      AllLeading(n);
      assert Fends(n)[0..] == Fends(n);
    }
  }

  /** A single frame comes back exactly when port and command fit their nibbles (the command 0xFF that
      leaves KISS mode does not) and it is not for port 12 with command 0: there the type octet is a
      FEND, and the first data octet is taken for the type. */
  lemma RoundTripExactly(f: Frame)
    ensures Decode(Encode(f)) == Decoded([f], []) <==> f.port < 16 && f.cmd < 16 && !(f.port == 12 && f.cmd == 0)
  {
    if TypeOctet(f.port, f.cmd) == FEND {
      TypeLost(f);
      if f.port < 16 && f.cmd < 16 { TypeIsFend(f.port, f.cmd); }
    } else if f.port < 16 && f.cmd < 16 {
      TypeIsFend(f.port, f.cmd);
      OneFrame(f);
    } else {
      FramesFit(Encode(f));
      assert f in [f];
    }
  }

  /** Every frame decoded has port and command below 16. */
  predicate Fits(f: Frame) { f.port < 16 && f.cmd < 16 }

  lemma ReadFits(raw: Bytes)
    ensures forall f :: f in Read(raw) ==> Fits(f)
  {
    if raw != [] { NibblesFit(raw[0]); }
  }

  lemma NibblesFit(b: byte)
    ensures (b >> 4) & 0x0F < 16 && b & 0x0F < 16
  {}

  lemma {:induction false} ReadAllFits(raws: seq<Bytes>)
    ensures forall f :: f in ReadAll(raws) ==> Fits(f)
    decreases |raws|
  {
    if raws != [] {
      ReadFits(raws[0]);
      ReadAllFits(raws[1..]);
    }
  }

  lemma FramesFit(buf: Bytes)
    ensures forall f :: f in Decode(buf).frames ==> Fits(f)
  {
    ReadAllFits(Split(buf).raws);
  }

  lemma OneFrame(f: Frame)
    requires Plain(f)
    ensures Decode(Encode(f)) == Decoded([f], [])
  {
    StreamDecoded([f], [0]);
    assert [f][1..] == [];
    assert Stream([f], [0]) == Fends(0) + Encode(f) + Stream([], []);
    assert Stream([f], [0]) == Encode(f);
  }

  lemma TypeLost(f: Frame)
    requires TypeOctet(f.port, f.cmd) == FEND
    ensures Decode(Encode(f)) != Decoded([f], [])
  {
    var raw := Escape(f.data);
    UnescapeEscape(f.data);
    if raw == [] {
      assert Encode(f) == Fends(3);
      OnlyFends(3);
    } else {
      TwoFends(f, raw);
      SplitStretch(2, raw, []);
      assert Split([]) == Cut([], []);
      ReadOne(raw);
      Shorter(raw, f);
    }
  }

  lemma TwoFends(f: Frame, raw: Bytes)
    requires TypeOctet(f.port, f.cmd) == FEND && raw == Escape(f.data)
    ensures Encode(f) == Fends(2) + (raw + [FEND] + [])
  {}

  /** The data that is left is shorter than what was sent. */
  lemma Shorter(raw: Bytes, f: Frame)
    requires raw != [] && Unescape(raw) == Some(f.data)
    ensures Read(raw) != [f]
  {
    EscapeUnescape(raw);
    if Unescape(raw[1..]).Some? { EscapeUnescape(raw[1..]); }
  }

  // ---- the loops --------------------------------------------------------------------------------------------

  method EncodeFrame(f: Frame) returns (octets: Bytes)
    ensures octets == Encode(f)
  {
    var escaped: Bytes := [];
    for i := 0 to |f.data|
      invariant escaped + Escape(f.data[i..]) == Escape(f.data)
    {
      assert f.data[i..][0] == f.data[i] && f.data[i..][1..] == f.data[i + 1..];
      ghost var before, later := escaped, Escape(f.data[i + 1..]);
      if f.data[i] == FEND {
        escaped := escaped + [FESC, TFEND];
        assert escaped + later == before + ([FESC, TFEND] + later);
      } else if f.data[i] == FESC {
        escaped := escaped + [FESC, TFESC];
        assert escaped + later == before + ([FESC, TFESC] + later);
      } else {
        escaped := escaped + [f.data[i]];
        assert escaped + later == before + ([f.data[i]] + later);
      }
    }
    assert escaped + [] == escaped;
    octets := [FEND, TypeOctet(f.port, f.cmd)] + escaped + [FEND];
  }

  /** Data already out in front of what is still to be unescaped. */
  function After(out: Bytes, rest: Option<Bytes>): Option<Bytes> {
    if rest.None? then None else Some(out + rest.value)
  }

  lemma AfterBefore(out: Bytes, b: byte, rest: Option<Bytes>)
    ensures After(out, Before(b, rest)) == After(out + [b], rest)
  {
    if rest.Some? { assert out + ([b] + rest.value) == out + [b] + rest.value; }
  }

  method UnescapeData(raw: Bytes) returns (data: Option<Bytes>)
    ensures data == Unescape(raw)
  {
    var out: Bytes := [];
    var i := 0;
    assert After([], Unescape(raw)) == Unescape(raw) by {
      if Unescape(raw).Some? { assert [] + Unescape(raw).value == Unescape(raw).value; }
    }
    while i < |raw|
      invariant 0 <= i <= |raw|
      invariant After(out, Unescape(raw[i..])) == Unescape(raw)
    {
      var b := raw[i];
      assert raw[i..][0] == b && raw[i..][1..] == raw[i + 1..];
      if b == FESC {
        i := i + 1;
        if i >= |raw| { return None; }
        var nb := raw[i];
        assert raw[i - 1..][1] == nb && raw[i - 1..][2..] == raw[i + 1..];
        if nb == TFEND {
          AfterBefore(out, FEND, Unescape(raw[i + 1..]));
          out := out + [FEND];
        } else if nb == TFESC {
          AfterBefore(out, FESC, Unescape(raw[i + 1..]));
          out := out + [FESC];
        } else {
          return None;
        }
      } else if b == FEND {
        return None;
      } else {
        AfterBefore(out, b, Unescape(raw[i + 1..]));
        out := out + [b];
      }
      i := i + 1;
    }
    assert out + [] == out;
    return Some(out);
  }

  lemma SplitNext(buf: Bytes, start: nat, i: nat, end: nat, raw: Bytes, rest: Bytes)
    requires start == Until(buf) < |buf| && i == start + Leading(buf[start..]) <= |buf|
    requires end == i + Until(buf[i..]) < |buf|
    requires raw == buf[i..end] && rest == buf[end + 1..]
    ensures Split(buf) == Onto([raw], Split(rest))
  {
    var body := buf[i..];
    assert buf[start..][i - start..] == body;
    assert body[..end - i] == raw && body[end - i + 1..] == rest;
    SplitBody(buf, body, end - i, raw, rest);
  }

  lemma SplitBody(buf: Bytes, body: Bytes, end: nat, raw: Bytes, rest: Bytes)
    requires Until(buf) < |buf| && body == buf[Until(buf)..][Leading(buf[Until(buf)..])..]
    requires end == Until(body) < |body| && raw == body[..end] && rest == body[end + 1..]
    ensures Split(buf) == Onto([raw], Split(rest))
  {}

  lemma SplitWait(buf: Bytes, start: nat, i: nat)
    requires start == Until(buf) < |buf| && i == start + Leading(buf[start..]) <= |buf|
    requires i < |buf| ==> i + Until(buf[i..]) == |buf|
    ensures Split(buf) == Cut([], buf[i..])
  {
    assert buf[start..][i - start..] == buf[i..];
  }

  lemma NoneLeft(rest: Bytes)
    requires Until(rest) == |rest|
    ensures Split(rest) == Cut([], rest)
  {}

  lemma OntoNone(cut: Cut)
    ensures cut == Onto([], cut)
  {
    assert [] + cut.raws == cut.raws;
  }

  lemma OntoOnto(raws: seq<Bytes>, raw: Bytes, cut: Cut)
    ensures Onto(raws, Onto([raw], cut)) == Onto(raws + [raw], cut)
  {
    assert raws + ([raw] + cut.raws) == raws + [raw] + cut.raws;
  }

  /** A receive buffer, consumed in place. */
  class Buffer {
    var octets: Bytes

    constructor ()
      ensures octets == []
    {
      octets := [];
    }

    method DecodeStream() returns (frames: seq<Frame>)
      modifies this
      ensures Decoded(frames, octets) == Decode(old(octets))
    {
      frames := [];
      ghost var raws: seq<Bytes> := [];
      OntoNone(Split(octets));
      while true
        invariant Split(old(octets)) == Onto(raws, Split(octets))
        invariant frames == ReadAll(raws)
        decreases |octets|
      {
        var raw := NextStretch();
        if raw.None? {
          assert raws + [] == raws;
          break;
        }
        OntoOnto(raws, raw.value, Split(octets));
        ReadAllConcat(raws, [raw.value]);
        ReadOne(raw.value);
        raws := raws + [raw.value];
        var found := ReadStretch(raw.value);
        frames := frames + found;
      }
    }

    /** Takes the next complete stretch off the buffer; if there is none, what may still become one stays. */
    method NextStretch() returns (raw: Option<Bytes>)
      modifies this
      ensures raw.Some? ==> Split(old(octets)) == Onto([raw.value], Split(octets)) && |octets| < |old(octets)|
      ensures raw.Some? ==> raw.value != []
      ensures raw.None? ==> Split(old(octets)) == Cut([], octets) && Split(octets).raws == []
    {
      var start := Until(octets);
      if start == |octets| { return None; }
      var i := SkipFends(start);
      if i >= |octets| {
        SplitWait(octets, start, i);
        octets := octets[i..];
        return None;
      }
      var end := i + Until(octets[i..]);
      if end == |octets| {
        SplitWait(octets, start, i);
        NoneLeft(octets[i..]);
        octets := octets[i..];
        return None;
      }
      raw := Some(octets[i..end]);
      SplitNext(octets, start, i, end, raw.value, octets[end + 1..]);
      octets := octets[end + 1..];
    }

    /** The frame of a stretch; one with a wrong escape is dropped. */
    method ReadStretch(raw: Bytes) returns (found: seq<Frame>)
      requires raw != []
      ensures found == Read(raw)
    {
      var data := UnescapeData(raw[1..]);
      if data.None? { return []; }
      return [Frame((raw[0] >> 4) & 0x0F, raw[0] & 0x0F, data.value)];
    }

    /** Past all the FENDs at `start`. */
    method SkipFends(start: nat) returns (i: nat)
      requires start <= |octets|
      ensures start <= i <= |octets| && i == start + Leading(octets[start..])
    {
      i := start;
      while i < |octets| && octets[i] == FEND
        invariant start <= i <= |octets|
        invariant i + Leading(octets[i..]) == start + Leading(octets[start..])
      {
        assert octets[i..][1..] == octets[i + 1..];
        i := i + 1;
      }
    }
  }
}
