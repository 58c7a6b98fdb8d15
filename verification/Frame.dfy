/** AX.25 frames: the control octet, the address field and the frame codec. */
module Frame {
  import opened Common
  import N = Numbers

  const PID_NO_L3: byte := 0xF0

  const CTRL_UI: byte := 0x03
  const CTRL_SABM: byte := 0x2F
  const CTRL_DISC: byte := 0x43
  const CTRL_UA: byte := 0x63
  const CTRL_DM: byte := 0x0F
  const CTRL_FRMR: byte := 0x87
  const U_MASK: byte := 0xEF
  const PF_BIT: byte := 0x10

  datatype FrameType = TI | TRR | TRNR | TREJ | TUI | TSABM | TUA | TDISC | TDM | TFRMR | TUnknown

  datatype Address = Address(callsign: string, ssid: nat, ch: bool, end: bool)

  datatype Frame = Frame(
    dest: Address, src: Address, repeaters: seq<Address>,
    control: byte, pid: Option<byte>, info: Bytes)

  // ---- the control octet ----------------------------------------------------------------------

  function TypeOf(c: byte): FrameType {
    if c & 0x01 == 0 then TI
    else if c & 0x03 == 0x01 then
      var stype := (c >> 2) & 0x03;
      if stype == 0 then TRR else if stype == 1 then TRNR else if stype == 2 then TREJ else TUnknown
    else
      var masked := c & U_MASK;
      if masked == CTRL_UI & U_MASK then TUI
      else if masked == CTRL_SABM & U_MASK then TSABM
      else if masked == CTRL_UA & U_MASK then TUA
      else if masked == CTRL_DISC & U_MASK then TDISC
      else if masked == CTRL_DM & U_MASK then TDM
      else if masked == CTRL_FRMR & U_MASK then TFRMR
      else TUnknown
  }

  function Ns(c: byte): (n: nat) ensures n < 8 { ((c >> 1) & 0x07) as nat }

  function Nr(c: byte): (n: nat) ensures n < 8 { ((c >> 5) & 0x07) as nat }

  function Pf(c: byte): bool { c & PF_BIT != 0 }

  /** The low three bits of a sequence number as an octet. */
  function Low3(n: nat): byte { (n % 8) as byte }

  function ICtrl(ns: nat, nr: nat, pf: bool): byte { (Low3(nr) << 5) | (Bit(pf) << 4) | (Low3(ns) << 1) }

  function SCtrl(base: byte, nr: nat, pf: bool): byte { (Low3(nr) << 5) | (Bit(pf) << 4) | base }

  /** N(R) replaced and nothing else, as a retransmission does it. */
  function ReplaceNr(c: byte, nr: nat): byte { (c & 0x1F) | (Low3(nr) << 5) }

  lemma Low3RoundTrip(n: nat)
    ensures Low3(n) as nat == n % 8 && Low3(n) < 8
  {}

  lemma ICtrlBits(s: byte, r: byte, p: byte)
    requires s < 8 && r < 8 && p < 2
    ensures var c := (r << 5) | (p << 4) | (s << 1);
            (c >> 1) & 0x07 == s && (c >> 5) & 0x07 == r && c & 0x01 == 0 && (c & 0x10 != 0 <==> p == 1)
  {}

  /** An I control octet carries N(S), N(R) and P/F where the accessors look for them. */
  lemma ICtrlFields(ns: nat, nr: nat, pf: bool)
    requires ns < 8 && nr < 8
    ensures var c := ICtrl(ns, nr, pf); TypeOf(c) == TI && Ns(c) == ns && Nr(c) == nr && Pf(c) == pf
  {
    Low3RoundTrip(ns);
    Low3RoundTrip(nr);
    ICtrlBits(Low3(ns), Low3(nr), Bit(pf));
  }

  lemma SCtrlBits(base: byte, r: byte, p: byte)
    requires r < 8 && p < 2 && (base == 0x01 || base == 0x05 || base == 0x09)
    ensures var c := (r << 5) | (p << 4) | base;
            && (c >> 5) & 0x07 == r && c & 0x03 == 0x01 && (c >> 2) & 0x03 == base >> 2
            && (c & 0x10 != 0 <==> p == 1)
  {}

  lemma SCtrlFields(base: byte, nr: nat, pf: bool)
    requires nr < 8 && (base == 0x01 || base == 0x05 || base == 0x09)
    ensures var c := SCtrl(base, nr, pf);
            && TypeOf(c) == (if base == 0x01 then TRR else if base == 0x05 then TRNR else TREJ)
            && Nr(c) == nr && Pf(c) == pf
  {
    Low3RoundTrip(nr);
    SCtrlBits(base, Low3(nr), Bit(pf));
    LowBit(SCtrl(base, nr, pf));
  }

  lemma LowBit(c: byte)
    requires c & 0x03 == 0x01
    ensures c & 0x01 != 0
  {}

  lemma ReplaceBits(c: byte, r: byte)
    requires r < 8
    ensures var d := (c & 0x1F) | (r << 5);
            && (d >> 5) & 0x07 == r && (d >> 1) & 0x07 == (c >> 1) & 0x07
            && d & 0x01 == c & 0x01 && d & 0x10 == c & 0x10
  {}

  /** Replacing N(R) in an I frame keeps its type, N(S) and P/F. */
  lemma ReplaceNrKeeps(c: byte, nr: nat)
    requires TypeOf(c) == TI && nr < 8
    ensures var d := ReplaceNr(c, nr); TypeOf(d) == TI && Ns(d) == Ns(c) && Pf(d) == Pf(c) && Nr(d) == nr
  {
    Low3RoundTrip(nr);
    ReplaceBits(c, Low3(nr));
  }

  // ---- addresses ------------------------------------------------------------------------------------

  /** The ASCII octet of `c`, or that of '?' where there is none. */
  function Ascii(c: char): byte {
    N.Octet(Code(c))
  }

  function Code(c: char): (n: nat)
    ensures n < 128
  {
    if c as int < 128 then c as int else 0x3F
  }

  function ShiftUp(b: byte): byte { b << 1 }

  function ShiftDown(b: byte): byte { b >> 1 }

  function Chr(b: byte): char { (b as int) as char }

  predicate IsSpace(c: char) {
    var n := c as int;
    n == 0x20 || 0x09 <= n <= 0x0D || 0x1C <= n <= 0x1F
  }

  /** `s` without trailing white space. */
  function RStrip(s: string): string {
    if s != [] && IsSpace(s[|s| - 1]) then RStrip(s[..|s| - 1]) else s
  }

  /** `callsign.upper().ljust(6)[:6]`. */
  function Padded(callsign: string): string {
    seq(6, i requires 0 <= i => if i < |callsign| then UpperChar(callsign[i]) else ' ')
  }

  function SsidByte(ssid: nat, ch: bool, end: bool): byte {
    0x60 | (Bit(ch) << 7) | (((ssid % 16) as byte) << 1) | Bit(end)
  }

  function EncodeAddress(a: Address): (r: Bytes)
    ensures |r| == 7
  {
    var p := Padded(a.callsign);
    seq(6, i requires 0 <= i < 6 => ShiftUp(Ascii(p[i]))) + [SsidByte(a.ssid, a.ch, a.end)]
  }

  function DecodeAddress(data: Bytes): Address
    requires |data| >= 7
  {
    Address(RStrip(seq(6, i requires 0 <= i < 6 => Chr(ShiftDown(data[i])))),
            ((data[6] >> 1) & 0x0F) as nat, data[6] & 0x80 != 0, data[6] & 0x01 != 0)
  }

  /** What the field can hold: at most six upper-case ASCII characters, the last not white
      space, and an SSID of 0..15. */
  predicate Canonical(a: Address) {
    && |a.callsign| <= 6
    && (forall i :: 0 <= i < |a.callsign| ==> a.callsign[i] as int < 128 && UpperChar(a.callsign[i]) == a.callsign[i])
    && (a.callsign != [] ==> !IsSpace(a.callsign[|a.callsign| - 1]))
    && a.ssid < 16
  }

  lemma ShiftBits(b: byte)
    requires b < 128
    ensures ShiftDown(ShiftUp(b)) == b
  {}

  lemma AsciiRoundTrip(c: char)
    ensures Chr(Ascii(c)) == (if c as int < 128 then c else '?')
  {
    N.ValueOfOctet(Code(c));
    N.ValueAsNat(Ascii(c));
    assert Code(c) as char == if c as int < 128 then c else '?';
  }

  lemma AsciiSmall(c: char)
    ensures Ascii(c) < 128
  {
    N.SmallOctet(Code(c));
  }

  lemma SsidBits(s: byte, c: byte, e: byte)
    requires s < 16 && c < 2 && e < 2
    ensures var b: byte := 0x60 | (c << 7) | (s << 1) | e;
            (b >> 1) & 0x0F == s && (b & 0x80 != 0 <==> c == 1) && (b & 0x01 != 0 <==> e == 1)
  {}

  lemma SsidRoundTrip(ssid: nat, ch: bool, end: bool)
    ensures var b := SsidByte(ssid, ch, end);
            && ((b >> 1) & 0x0F) as nat == ssid % 16
            && (b & 0x80 != 0 <==> ch) && (b & 0x01 != 0 <==> end)
  {
    SsidBits((ssid % 16) as byte, Bit(ch), Bit(end));
    Nibble(ssid % 16);
  }

  lemma Nibble(n: nat)
    requires n < 16
    ensures (n as byte) as nat == n && n as byte < 16
  {}

  /** The six characters a receiver sees. */
  function Seen(callsign: string): string {
    var p := Padded(callsign);
    seq(6, i requires 0 <= i < 6 => if p[i] as int < 128 then p[i] else '?')
  }

  lemma DecodedCallsign(a: Address)
    ensures DecodeAddress(EncodeAddress(a)) == Address(RStrip(Seen(a.callsign)), a.ssid % 16, a.ch, a.end)
  {
    var e := EncodeAddress(a);
    var p := Padded(a.callsign);
    forall i | 0 <= i < 6 ensures Chr(ShiftDown(e[i])) == Seen(a.callsign)[i] {
      AsciiRoundTrip(p[i]);
      AsciiSmall(p[i]);
      ShiftBits(Ascii(p[i]));
    }
    assert seq(6, i requires 0 <= i < 6 => Chr(ShiftDown(e[i]))) == Seen(a.callsign);
    SsidRoundTrip(a.ssid, a.ch, a.end);
  }

  /** Stripping removes padding and nothing more. */
  lemma {:induction false} RStripPadding(s: string, k: nat)
    requires k <= |s|
    requires forall i :: k <= i < |s| ==> s[i] == ' '
    requires k > 0 ==> !IsSpace(s[k - 1])
    ensures RStrip(s) == s[..k]
    decreases |s|
  {
    if |s| > k {
      assert s[|s| - 1] == ' ';
      RStripPadding(s[..|s| - 1], k);
      assert s[..|s| - 1][..k] == s[..k];
    } else {
      assert s[..k] == s;
    }
  }

  lemma {:induction false} RStripIsPrefix(s: string)
    ensures RStrip(s) <= s
    ensures RStrip(s) != [] ==> !IsSpace(RStrip(s)[|RStrip(s)| - 1])
    decreases |s|
  {
    if s != [] && IsSpace(s[|s| - 1]) { RStripIsPrefix(s[..|s| - 1]); }
  }

  lemma CanonicalSeen(a: Address)
    requires Canonical(a)
    ensures RStrip(Seen(a.callsign)) == a.callsign
  {
    var s := Seen(a.callsign);
    RStripPadding(s, |a.callsign|);
    assert s[..|a.callsign|] == a.callsign;
  }

  lemma SeenCanonical(a: Address)
    requires RStrip(Seen(a.callsign)) == a.callsign && a.ssid % 16 == a.ssid
    ensures Canonical(a)
  {
    var s := Seen(a.callsign);
    RStripIsPrefix(s);
    forall i | 0 <= i < |a.callsign|
      ensures a.callsign[i] as int < 128 && UpperChar(a.callsign[i]) == a.callsign[i]
    {
      assert s[i] == a.callsign[i];
    }
  }

  /** An address survives the codec exactly when it is canonical. */
  lemma AddressRoundTrip(a: Address)
    ensures DecodeAddress(EncodeAddress(a)) == a <==> Canonical(a)
  {
    DecodedCallsign(a);
    SeenIffCanonical(a);
  }

  lemma SeenIffCanonical(a: Address)
    ensures RStrip(Seen(a.callsign)) == a.callsign && a.ssid % 16 == a.ssid <==> Canonical(a)
  {
    if Canonical(a) { CanonicalSeen(a); }
    if RStrip(Seen(a.callsign)) == a.callsign && a.ssid % 16 == a.ssid { SeenCanonical(a); }
  }

  // ---- frames ---------------------------------------------------------------------------------------------

  function Addresses(f: Frame): seq<Address> { [f.dest, f.src] + f.repeaters }

  /** The addresses with the end bit on the last one only. */
  function Ended(xs: seq<Address>): seq<Address> {
    seq(|xs|, i requires 0 <= i < |xs| => xs[i].(end := i == |xs| - 1))
  }

  function WithEnds(f: Frame): Frame {
    var xs := Ended(Addresses(f));
    f.(dest := xs[0], src := xs[1], repeaters := xs[2..])
  }

  function EncodeAddresses(xs: seq<Address>): Bytes {
    if xs == [] then [] else EncodeAddress(xs[0]) + EncodeAddresses(xs[1..])
  }

  function TailOf(control: byte, pid: Option<byte>, info: Bytes): Bytes {
    [control] + (if pid.Some? then [pid.value] else []) + info
  }

  function Tail(f: Frame): Bytes { TailOf(f.control, f.pid, f.info) }

  function EncodeFrame(f: Frame): Bytes { EncodeAddresses(Ended(Addresses(f))) + Tail(f) }

  /** The address field: 7-octet addresses up to one with the end bit, or while 7 octets are left. */
  function DecodeAddresses(data: Bytes): (r: (seq<Address>, Bytes))
    ensures |r.1| + 7 * |r.0| == |data|
    decreases |data|
  {
    if |data| < 7 then ([], data)
    else
      var a := DecodeAddress(data[..7]);
      if a.end then ([a], data[7..])
      else
        var r := DecodeAddresses(data[7..]);
        ([a] + r.0, r.1)
  }

  /** Control octet, PID and information field behind the addresses. */
  function DecodeTail(xs: seq<Address>, rest: Bytes): Frame
    requires |xs| >= 2 && rest != []
  {
    var t := TypeOf(rest[0]);
    var f := Frame(xs[0], xs[1], xs[2..], rest[0], None, []);
    if t == TI || t == TUI then
      if |rest| > 1 then f.(pid := Some(rest[1]), info := rest[2..]) else f
    else if t == TFRMR then f.(info := rest[1..])
    else f
  }

  function DecodeFrame(data: Bytes): Result<Frame> {
    if |data| < 15 then Err("Frame too short")
    else
      var r := DecodeAddresses(data);
      if |r.0| < 2 then Err("Frame has fewer than 2 address fields")
      else if r.1 == [] then Err("No control byte")
      else Ok(DecodeTail(r.0, r.1))
  }

  /** PID and information are present only where the frame type carries them. */
  predicate CarriesRight(f: Frame) {
    var t := TypeOf(f.control);
    if t == TI || t == TUI then f.pid.Some? || f.info == []
    else f.pid.None? && (t == TFRMR || f.info == [])
  }

  /** What a receiver makes of the addresses. */
  function Reread(xs: seq<Address>): seq<Address> {
    seq(|xs|, i requires 0 <= i < |xs| => DecodeAddress(EncodeAddress(xs[i])))
  }

  /** Fields of seven octets that decode to `xs`, the end bit on the last one only. */
  ghost predicate Fields(es: seq<Bytes>, xs: seq<Address>) {
    && |es| == |xs|
    && forall i :: 0 <= i < |es| ==> |es[i]| == 7 && DecodeAddress(es[i]) == xs[i] && xs[i].end == (i == |es| - 1)
  }

  lemma {:induction false} FieldsDecoded(es: seq<Bytes>, xs: seq<Address>, rest: Bytes)
    requires es != [] && Fields(es, xs)
    ensures DecodeAddresses(Flat(es) + rest) == (xs, rest)
    decreases |es|
  {
    var later := Flat(es[1..]) + rest;
    assert Flat(es) + rest == es[0] + later;
    DecodeFirst(es[0], later, xs[0]);
    if |es| > 1 {
      FieldsDecoded(es[1..], xs[1..], rest);
      assert xs == [xs[0]] + xs[1..];
    } else {
      assert later == rest && xs == [xs[0]];
    }
  }

  lemma DecodeFirst(e: Bytes, later: Bytes, a: Address)
    requires |e| == 7 && a == DecodeAddress(e)
    ensures DecodeAddresses(e + later) ==
            if a.end then ([a], later) else ([a] + DecodeAddresses(later).0, DecodeAddresses(later).1)
  {
    assert (e + later)[..7] == e && (e + later)[7..] == later;
  }

  function Encoded(xs: seq<Address>): seq<Bytes> {
    seq(|xs|, i requires 0 <= i < |xs| => EncodeAddress(xs[i]))
  }

  lemma {:induction false} EncodedFlat(xs: seq<Address>)
    ensures EncodeAddresses(xs) == Flat(Encoded(xs))
    decreases |xs|
  {
    if xs != [] {
      EncodedFlat(xs[1..]);
      var es := Encoded(xs);
      assert es[0] == EncodeAddress(xs[0]) && es[1..] == Encoded(xs[1..]);
    }
  }

  lemma AddressesRoundTrip(xs: seq<Address>, rest: Bytes)
    requires xs != []
    requires forall i :: 0 <= i < |xs| ==> xs[i].end == (i == |xs| - 1)
    ensures DecodeAddresses(EncodeAddresses(xs) + rest) == (Reread(xs), rest)
  {
    EncodedFlat(xs);
    EncodedFields(xs);
    FieldsDecoded(Encoded(xs), Reread(xs), rest);
  }

  lemma EncodedFields(xs: seq<Address>)
    requires forall i :: 0 <= i < |xs| ==> xs[i].end == (i == |xs| - 1)
    ensures Fields(Encoded(xs), Reread(xs))
  {
    forall i | 0 <= i < |xs| ensures Reread(xs)[i].end == (i == |xs| - 1) {
      DecodedCallsign(xs[i]);
    }
  }

  predicate AllCanonical(xs: seq<Address>) {
    forall i :: 0 <= i < |xs| ==> Canonical(xs[i])
  }

  lemma RereadSame(xs: seq<Address>)
    ensures Reread(xs) == xs <==> AllCanonical(xs)
  {
    forall i | 0 <= i < |xs| ensures Reread(xs)[i] == xs[i] <==> Canonical(xs[i]) {
      AddressRoundTrip(xs[i]);
    }
    if Reread(xs) == xs {
      forall i | 0 <= i < |xs| ensures Canonical(xs[i]) { assert Reread(xs)[i] == xs[i]; }
    }
  }

  lemma DecodeEncoded(f: Frame)
    ensures DecodeFrame(EncodeFrame(f)) == Ok(DecodeTail(Reread(Ended(Addresses(f))), Tail(f)))
  {
    var xs := Ended(Addresses(f));
    AddressesRoundTrip(xs, Tail(f));
    EncodedLength(xs);
  }

  lemma EndedCanonical(xs: seq<Address>)
    ensures AllCanonical(Ended(xs)) <==> AllCanonical(xs)
  {
    if AllCanonical(Ended(xs)) {
      forall i | 0 <= i < |xs| ensures Canonical(xs[i]) { assert Canonical(Ended(xs)[i]); }
    }
  }

  /** The frame codec: decoding returns the frame, end bit on the last address only, exactly when
      every address is canonical and PID and information sit where the type carries them. */
  lemma FrameRoundTrip(f: Frame)
    ensures DecodeFrame(EncodeFrame(f)) == Ok(WithEnds(f)) <==> CarriesRight(f) && AllCanonical(Addresses(f))
  {
    var xs := Ended(Addresses(f));
    DecodeEncoded(f);
    TailRoundTrip(f, Reread(xs));
    RereadSame(xs);
    EndedCanonical(Addresses(f));
  }

  lemma {:induction false} EncodedLength(xs: seq<Address>)
    ensures |EncodeAddresses(xs)| == 7 * |xs|
    decreases |xs|
  {
    if xs != [] { EncodedLength(xs[1..]); }
  }

  lemma TailRoundTrip(f: Frame, ys: seq<Address>)
    requires |ys| == |Addresses(f)|
    ensures DecodeTail(ys, Tail(f)) == WithEnds(f) <==> CarriesRight(f) && ys == Ended(Addresses(f))
  {
    var t := Tail(f);
    var xs := Ended(Addresses(f));
    var g := DecodeTail(ys, t);
    if f.pid.Some? {
      assert t[1..] == [f.pid.value] + f.info;
      assert t[2..] == f.info;
    } else {
      assert t[1..] == f.info;
      assert |t| > 1 ==> t[2..] == f.info[1..];
    }
    if g == WithEnds(f) {
      assert ys == [g.dest, g.src] + g.repeaters;
      assert xs == [xs[0], xs[1]] + xs[2..];
      if f.pid.None? && f.info != [] { assert |g.info| == |f.info|; }
      if f.pid.Some? { assert TypeOf(f.control) == TFRMR ==> |g.info| == |f.info| + 1; }
    }
  }

  // ---- the frames a connection sends ------------------------------------------------------------------

  /** A frame without repeaters; the C bits say command or response. */
  function Plain(dest: Address, src: Address, command: bool, control: byte, pid: Option<byte>, info: Bytes): Frame {
    Frame(dest.(ch := command), src.(ch := !command), [], control, pid, info)
  }

  function SabmFrame(dest: Address, src: Address): Frame { Plain(dest, src, true, CTRL_SABM, None, []) }

  function UaFrame(dest: Address, src: Address): Frame { Plain(dest, src, false, CTRL_UA, None, []) }

  function DiscFrame(dest: Address, src: Address): Frame { Plain(dest, src, true, CTRL_DISC, None, []) }

  function DmFrame(dest: Address, src: Address): Frame { Plain(dest, src, false, CTRL_DM, None, []) }

  function RrFrame(dest: Address, src: Address, nr: nat, pf: bool, command: bool): Frame {
    Plain(dest, src, command, SCtrl(0x01, nr, pf), None, [])
  }

  function RejFrame(dest: Address, src: Address, nr: nat, pf: bool, command: bool): Frame {
    Plain(dest, src, command, SCtrl(0x09, nr, pf), None, [])
  }

  function IFrame(dest: Address, src: Address, ns: nat, nr: nat, info: Bytes): Frame {
    Plain(dest, src, true, ICtrl(ns, nr, false), Some(PID_NO_L3), info)
  }

  // ---- the codec as the code runs it ------------------------------------------------------------------

  lemma {:induction false} EncodeAddressesSnoc(xs: seq<Address>, x: Address)
    ensures EncodeAddresses(xs + [x]) == EncodeAddresses(xs) + EncodeAddress(x)
    decreases |xs|
  {
    if xs == [] {
      assert xs + [x] == [x];
      assert EncodeAddresses([x]) == EncodeAddress(x) + EncodeAddresses([]);
    } else {
      assert (xs + [x])[1..] == xs[1..] + [x];
      EncodeAddressesSnoc(xs[1..], x);
    }
  }

  lemma AppendTail(head: Bytes, control: byte, pid: Option<byte>, info: Bytes)
    ensures (if pid.Some? then head + [control] + [pid.value] else head + [control]) + info ==
            head + TailOf(control, pid, info)
  {}

  lemma EndedIsWithEnds(f: Frame, g: Frame)
    requires Addresses(g) == Ended(Addresses(f))
    requires g.control == f.control && g.pid == f.pid && g.info == f.info
    ensures g == WithEnds(f) && Tail(g) == Tail(f)
  {
    assert g.repeaters == Addresses(g)[2..];
    assert g.dest == Addresses(g)[0] && g.src == Addresses(g)[1];
  }

  class AX25Address {
    var callsign: string
    var ssid: nat
    var ch: bool
    var end: bool

    constructor (callsign: string, ssid: nat, ch: bool, end: bool)
      ensures Value() == Address(callsign, ssid, ch, end)
    {
      this.callsign, this.ssid, this.ch, this.end := callsign, ssid, ch, end;
    }

    function Value(): Address
      reads this
    {
      Address(callsign, ssid, ch, end)
    }

    /** Seven octets; the caller sets `end`. */
    function Encode(): Bytes
      reads this
    {
      EncodeAddress(Value())
    }
  }

  class AX25Frame {
    var dest: AX25Address
    var src: AX25Address
    var repeaters: seq<AX25Address>
    var control: byte
    var pid: Option<byte>
    var info: Bytes

    constructor (dest: AX25Address, src: AX25Address, repeaters: seq<AX25Address>,
                 control: byte, pid: Option<byte>, info: Bytes)
      ensures Addrs() == [dest, src] + repeaters
      ensures this.control == control && this.pid == pid && this.info == info
    {
      this.dest, this.src, this.repeaters := dest, src, repeaters;
      this.control, this.pid, this.info := control, pid, info;
    }

    function Addrs(): seq<AX25Address>
      reads this
    {
      [dest, src] + repeaters
    }

    function Values(xs: seq<AX25Address>): (r: seq<Address>)
      reads xs
      ensures |r| == |xs| && forall i :: 0 <= i < |r| ==> r[i] == xs[i].Value()
      decreases |xs|
    {
      if xs == [] then [] else [xs[0].Value()] + Values(xs[1..])
    }

    function Value(): (f: Frame)
      reads this, dest, src, repeaters
      ensures Addresses(f) == Values(Addrs())
    {
      assert Values(Addrs()) == [dest.Value(), src.Value()] + Values(repeaters);
      Frame(dest.Value(), src.Value(), Values(repeaters), control, pid, info)
    }

    /** The octets of the frame with the end bits as they stand. */
    ghost function AsIs(): Bytes
      reads this, Addrs()
    {
      EncodeAddresses(Values(Addrs())) + TailOf(control, pid, info)
    }

    /** Only the end bits of the addresses have changed since, to mark the last one. */
    twostate predicate Marked()
      reads this, Addrs()
    {
      && dest == old(dest) && src == old(src) && repeaters == old(repeaters)
      && control == old(control) && pid == old(pid) && info == old(info)
      && forall a :: a in Addrs() ==>
           && (a.end <==> a == Addrs()[|Addrs()| - 1])
           && a.callsign == old(a.callsign) && a.ssid == old(a.ssid) && a.ch == old(a.ch)
    }

    predicate Distinct()
      reads this
    {
      forall i, j :: 0 <= i < j < |Addrs()| ==> Addrs()[i] != Addrs()[j]
    }

    twostate lemma MarkedDistinct()
      requires Marked() && old(Distinct())
      ensures Values(Addrs()) == Ended(old(Values(Addrs())))
    {
      var vs, ws := old(Values(Addrs())), Values(Addrs());
      var n := |Addrs()|;
      forall i | 0 <= i < n ensures ws[i] == vs[i].(end := i == n - 1) {
        var a := Addrs()[i];
        assert a in Addrs();
        assert ws[i] == a.Value() && vs[i] == old(a.Value());
        assert a == Addrs()[n - 1] <==> i == n - 1;
      }
    }

    twostate lemma MarkedEncodes()
      requires Marked() && old(Distinct())
      ensures Value() == WithEnds(old(Value())) && Tail(Value()) == Tail(old(Value()))
      ensures AsIs() == EncodeFrame(old(Value()))
    {
      MarkedDistinct();
      EndedIsWithEnds(old(Value()), Value());
    }

    method MarkLast()
      modifies Addrs()
      ensures Marked()
      ensures old(Distinct()) ==> AsIs() == EncodeFrame(old(Value()))
    {
      var addrs := Addrs();
      var n := |addrs|;
      for i := 0 to n
        invariant forall j :: 0 <= j < i ==> (addrs[j].end <==> i == n && addrs[j] == addrs[n - 1])
        invariant forall a :: a in addrs ==>
                    a.callsign == old(a.callsign) && a.ssid == old(a.ssid) && a.ch == old(a.ch)
      {
        addrs[i].end := i == n - 1;
      }
      if old(Distinct()) { MarkedEncodes(); }
    }

    /** The octets of the addresses as they stand, then control, PID and information. */
    method Octets() returns (out: Bytes)
      ensures out == AsIs()
      ensures unchanged(this, Addrs())
    {
      var addrs := Addrs();
      ghost var vs := Values(addrs);
      out := [];
      for i := 0 to |addrs|
        invariant out == EncodeAddresses(vs[..i])
      {
        out := out + addrs[i].Encode();
        EncodeAddressesSnoc(vs[..i], vs[i]);
        assert vs[..i + 1] == vs[..i] + [vs[i]];
      }
      assert vs[..|addrs|] == vs;
      out := out + [control];
      if pid.Some? { out := out + [pid.value]; }
      out := out + info;
      AppendTail(EncodeAddresses(vs), control, pid, info);
    }

    /** The end bit is set in place, object by object: every address that is the same object as the last
        one gets it. On distinct objects the octets are those of `EncodeFrame`. */
    method Encode() returns (out: Bytes)
      modifies Addrs()
      ensures Marked()
      ensures out == AsIs()
      ensures old(Distinct()) ==> out == EncodeFrame(old(Value()))
    {
      MarkLast();
      out := Octets();
    }
  }

  /** The loop over the address field; `i` is where the control octet should be. */
  method DecodeAddressField(data: Bytes) returns (addresses: seq<Address>, i: nat)
    ensures i <= |data| && DecodeAddresses(data) == (addresses, data[i..])
  {
    i := 0;
    addresses := [];
    assert data[0..] == data;
    BehindNone(DecodeAddresses(data));
    while i + 7 <= |data|
      invariant 0 <= i <= |data|
      invariant DecodeAddresses(data) == Behind(addresses, DecodeAddresses(data[i..]))
      decreases |data| - i
    {
      var addr := DecodeAddress(data[i..i + 7]);
      assert data[i..] == data[i..i + 7] + data[i + 7..];
      DecodeFirst(data[i..i + 7], data[i + 7..], addr);
      BehindOne(addresses, addr, DecodeAddresses(data[i + 7..]), data[i + 7..]);
      addresses := addresses + [addr];
      i := i + 7;
      if addr.end { return; }
    }
    assert addresses + [] == addresses;
  }

  /** Addresses already out, in front of what is still to be decoded. */
  function Behind(xs: seq<Address>, r: (seq<Address>, Bytes)): (seq<Address>, Bytes) { (xs + r.0, r.1) }

  lemma BehindNone(r: (seq<Address>, Bytes))
    ensures Behind([], r) == r
  {
    assert [] + r.0 == r.0;
  }

  lemma BehindOne(xs: seq<Address>, x: Address, r: (seq<Address>, Bytes), rest: Bytes)
    ensures Behind(xs, ([x] + r.0, r.1)) == Behind(xs + [x], r)
    ensures Behind(xs, ([x], rest)) == (xs + [x], rest)
  {
    assert xs + ([x] + r.0) == xs + [x] + r.0;
  }

  method Decode(data: Bytes) returns (r: Result<Frame>)
    ensures r == DecodeFrame(data)
  {
    if |data| < 15 { return Err("Frame too short"); }
    var addresses, i := DecodeAddressField(data);
    if |addresses| < 2 { return Err("Frame has fewer than 2 address fields"); }
    if i >= |data| { return Err("No control byte"); }
    ghost var rest := data[i..];
    var control := data[i];
    i := i + 1;
    var ft := TypeOf(control);
    var pid, info := None, [];
    if ft == TI || ft == TUI {
      if i < |data| {
        pid := Some(data[i]);
        i := i + 1;
        assert data[i..] == rest[2..];
      }
      info := data[i..];
      assert i >= |data| ==> info == [];
    } else if ft == TFRMR {
      info := data[i..];
      assert info == rest[1..];
    }
    r := Ok(Frame(addresses[0], addresses[1], addresses[2..], control, pid, info));
  }
}
