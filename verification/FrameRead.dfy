/** What is on the wire and what a receiver makes of it, octet by octet, in the numbers of the standard
    (sections 3.12, 4.2 and 4.3 of AX.25 v2.2). */
module FrameRead {
  import opened Common
  import opened Frame

  // ---- the type of a received frame ----------------------------------------------------------------

  /** The P/F bit does not make the type of a U frame. */
  lemma PollBitIgnored(c: byte)
    requires c & 0x03 == 0x03
    ensures TypeOf(c | 0x10) == TypeOf(c & 0xEF) == TypeOf(c)
  {}

  /** All 256 control octets: U frames with and without P/F. */
  lemma UTypes(c: byte)
    ensures TypeOf(c) == TSABM <==> c == 0x2F || c == 0x3F
    ensures TypeOf(c) == TUA <==> c == 0x63 || c == 0x73
    ensures TypeOf(c) == TDISC <==> c == 0x43 || c == 0x53
    ensures TypeOf(c) == TDM <==> c == 0x0F || c == 0x1F
    ensures TypeOf(c) == TUI <==> c == 0x03 || c == 0x13
    ensures TypeOf(c) == TFRMR <==> c == 0x87 || c == 0x97
  {}

  /** And the numbered ones. What is left has no type. */
  lemma NumberedTypes(c: byte)
    ensures TypeOf(c) == TI <==> c & 0x01 == 0
    ensures TypeOf(c) == TRR <==> c & 0x0F == 0x01
    ensures TypeOf(c) == TRNR <==> c & 0x0F == 0x05
    ensures TypeOf(c) == TREJ <==> c & 0x0F == 0x09
  {}

  /** Where the numbers are. */
  lemma FieldsOf(c: byte)
    ensures Nr(c) == (c >> 5) as nat && Ns(c) == ((c & 0x0E) >> 1) as nat && (Pf(c) <==> c & 0x10 == 0x10)
  {
    FieldBits(c);
  }

  lemma FieldBits(c: byte)
    ensures (c >> 5) & 0x07 == c >> 5 && (c >> 1) & 0x07 == (c & 0x0E) >> 1 && (c & 0x10 != 0 <==> c & 0x10 == 0x10)
  {}

  // ---- octets received -----------------------------------------------------------------------------

  /** The address field of `data` has `m` addresses: the last is the first one with the end bit, or the last
      for which there are seven octets. */
  ghost predicate FieldCount(data: Bytes, m: nat) {
    && 7 * m <= |data|
    && (forall k :: 0 <= k < m - 1 ==> data[7 * k + 6] & 0x01 == 0)
    && (|data| < 7 * m + 7 || (m > 0 && data[7 * m - 1] & 0x01 == 1))
  }

  predicate Blank(c: char) {
    c as int == 0x20 || 0x09 <= c as int <= 0x0D || 0x1C <= c as int <= 0x1F
  }

  /** `t` is `s` without the white space at its end. */
  predicate Stripped(s: string, t: string) {
    t <= s && (forall i :: |t| <= i < |s| ==> Blank(s[i])) && (t != [] ==> !Blank(t[|t| - 1]))
  }

  lemma {:induction false} RStripStrips(s: string)
    ensures Stripped(s, RStrip(s))
    decreases |s|
  {
    if s != [] && IsSpace(s[|s| - 1]) { RStripStrips(s[..|s| - 1]); }
  }

  /** Address `k` of the field. */
  ghost predicate FieldIs(data: Bytes, k: nat, a: Address)
    requires 7 * k + 7 <= |data|
  {
    var o := data[7 * k + 6];
    && (exists s: string :: |s| == 6 && Stripped(s, a.callsign) &&
          forall i :: 0 <= i < 6 ==> s[i] as int == (data[7 * k + i] >> 1) as int)
    && a.ssid == ((o & 0x1E) >> 1) as nat
    && (a.ch <==> o & 0x80 == 0x80) && (a.end <==> o & 0x01 == 0x01)
  }

  lemma SsidBits(o: byte)
    ensures (o >> 1) & 0x0F == (o & 0x1E) >> 1 && (o & 0x80 != 0 <==> o & 0x80 == 0x80) && (o & 0x01 != 0 <==> o & 0x01 == 0x01)
    ensures o & 0x01 == 0 <==> o & 0x01 != 0x01
  {}

  lemma FirstField(data: Bytes)
    requires |data| >= 7
    ensures FieldIs(data, 0, DecodeAddress(data[..7]))
  {
    var s := seq(6, i requires 0 <= i < 6 => Chr(ShiftDown(data[..7][i])));
    SsidBits(data[6]);
    RStripStrips(s);
    assert data[..7][6] == data[6];
    assert forall i :: 0 <= i < 6 ==> s[i] as int == (data[i] >> 1) as int;
  }

  lemma FieldLater(data: Bytes, k: nat, a: Address)
    requires |data| >= 7 && 7 * k + 7 <= |data| - 7 && FieldIs(data[7..], k, a)
    ensures FieldIs(data, k + 1, a)
  {
    var later := data[7..];
    var s: string :| |s| == 6 && Stripped(s, a.callsign) &&
        forall i :: 0 <= i < 6 ==> s[i] as int == (later[7 * k + i] >> 1) as int;
    forall i | 0 <= i < 6 ensures s[i] as int == (data[7 * (k + 1) + i] >> 1) as int {
      assert later[7 * k + i] == data[7 * (k + 1) + i];
    }
    assert later[7 * k + 6] == data[7 * (k + 1) + 6];
  }

  lemma CountLater(data: Bytes, m: nat)
    requires |data| >= 7 && data[6] & 0x01 == 0 && FieldCount(data[7..], m)
    ensures FieldCount(data, m + 1)
  {
    var later := data[7..];
    forall k | 0 <= k < m ensures data[7 * k + 6] & 0x01 == 0 {
      if k > 0 { assert later[7 * (k - 1) + 6] == data[7 * k + 6]; }
    }
    if m > 0 { assert later[7 * m - 1] == data[7 * (m + 1) - 1]; }
  }

  /** The address field of any octets. */
  lemma {:induction false} FieldsRead(data: Bytes)
    ensures var r := DecodeAddresses(data);
            && FieldCount(data, |r.0|) && r.1 == data[7 * |r.0|..]
            && forall k :: 0 <= k < |r.0| ==> FieldIs(data, k, r.0[k])
    decreases |data|
  {
    if |data| >= 7 {
      var a, r := DecodeAddress(data[..7]), DecodeAddresses(data);
      FirstField(data);
      SsidBits(data[6]);
      if !a.end {
        var later := DecodeAddresses(data[7..]);
        FieldsRead(data[7..]);
        CountLater(data, |later.0|);
        LaterFields(data, a, later.0);
      }
    }
  }

  lemma LaterFields(data: Bytes, a: Address, later: seq<Address>)
    requires |data| >= 7 && 7 * |later| <= |data| - 7 && FieldIs(data, 0, a)
    requires forall k :: 0 <= k < |later| ==> FieldIs(data[7..], k, later[k])
    ensures forall k :: 0 <= k < |later| + 1 ==> FieldIs(data, k, ([a] + later)[k])
  {
    forall k | 0 <= k < |later| + 1 ensures FieldIs(data, k, ([a] + later)[k]) {
      if k > 0 { FieldLater(data, k - 1, later[k - 1]); }
    }
  }

  /** There is only one such number. */
  lemma CountUnique(data: Bytes, m: nat, n: nat)
    requires FieldCount(data, m) && FieldCount(data, n)
    ensures m == n
  {
    if m < n { EndsThere(data, m, n); }
    if n < m { EndsThere(data, n, m); }
  }

  lemma EndsThere(data: Bytes, m: nat, n: nat)
    requires FieldCount(data, m) && m < n && 7 * n <= |data|
    ensures m > 0 && data[7 * (m - 1) + 6] & 0x01 == 1
  {
    assert 7 * (m - 1) + 6 == 7 * m - 1;
  }

  /** The frame is what the octets behind `m` addresses say. */
  ghost predicate FrameIs(data: Bytes, m: nat, f: Frame)
    requires 2 <= m && 7 * m < |data|
  {
    var c, rest := data[7 * m], data[7 * m + 1..];
    && |Addresses(f)| == m && (forall k :: 0 <= k < m ==> FieldIs(data, k, Addresses(f)[k]))
    && f.control == c
    && (if c & 0x01 == 0 || c == 0x03 || c == 0x13 then
          if rest == [] then f.pid == None && f.info == [] else f.pid == Some(rest[0]) && f.info == rest[1..]
        else f.pid == None && f.info == if c == 0x87 || c == 0x97 then rest else [])
  }

  /** Any octets: fifteen are needed, two addresses and a control octet; the rest is read by its type. */
  lemma FrameOf(data: Bytes, m: nat)
    requires FieldCount(data, m)
    ensures DecodeFrame(data).Ok? <==> |data| >= 15 && m >= 2 && 7 * m < |data|
    ensures DecodeFrame(data).Ok? ==> FrameIs(data, m, DecodeFrame(data).value)
    ensures |data| < 15 ==> DecodeFrame(data) == Err("Frame too short")
    ensures |data| >= 15 && m < 2 ==> DecodeFrame(data) == Err("Frame has fewer than 2 address fields")
    ensures |data| >= 15 && m >= 2 && 7 * m == |data| ==> DecodeFrame(data) == Err("No control byte")
  {
    var r := DecodeAddresses(data);
    FieldsRead(data);
    CountUnique(data, m, |r.0|);
    if |data| >= 15 && m >= 2 && 7 * m < |data| {
      TailRead(r.0, r.1);
      assert r.1[1..] == data[7 * m + 1..];
    }
  }

  lemma TailRead(xs: seq<Address>, rest: Bytes)
    requires |xs| >= 2 && rest != []
    ensures var f := DecodeTail(xs, rest); var c, more := rest[0], rest[1..];
            && Addresses(f) == xs && f.control == c
            && (if c & 0x01 == 0 || c == 0x03 || c == 0x13 then
                  if more == [] then f.pid == None && f.info == [] else f.pid == Some(more[0]) && f.info == more[1..]
                else f.pid == None && f.info == if c == 0x87 || c == 0x97 then more else [])
  {
    UTypes(rest[0]);
    NumberedTypes(rest[0]);
    assert [xs[0], xs[1]] + xs[2..] == xs;
    if |rest| > 1 { assert rest[1..][1..] == rest[2..]; }
  }

  // ---- octets sent ---------------------------------------------------------------------------------

  lemma Doubled(b: byte)
    requires b < 128
    ensures ShiftUp(b) as nat == 2 * (b as nat)
  {
    N.Half(ShiftUp(b));
    DoubledBits(b);
  }

  lemma DoubledBits(b: byte)
    requires b < 128
    ensures (b << 1) >> 1 == b && (b << 1) & 1 == 0
  {}

  /** An address on the wire: six characters of seven bits, moved up by one, then the SSID between the C bit,
      two ones and the end bit. */
  lemma AddressOctets(a: Address)
    requires Canonical(a)
    ensures var e := EncodeAddress(a);
            && |e| == 7
            && (forall i :: 0 <= i < 6 ==> e[i] as nat == 2 * (if i < |a.callsign| then a.callsign[i] as nat else 0x20))
            && ((e[6] >> 1) & 0x0F) as nat == a.ssid && e[6] & 0x60 == 0x60
            && (e[6] & 0x80 == 0x80 <==> a.ch) && (e[6] & 0x01 == 0x01 <==> a.end)
  {
    var e := EncodeAddress(a);
    forall i | 0 <= i < 6
      ensures e[i] as nat == 2 * (if i < |a.callsign| then a.callsign[i] as nat else 0x20)
    {
      CallsignOctet(a, i);
    }
    SsidOctet(a);
  }

  lemma CallsignOctet(a: Address, i: nat)
    requires Canonical(a) && i < 6
    ensures EncodeAddress(a)[i] as nat == 2 * (if i < |a.callsign| then a.callsign[i] as nat else 0x20)
  {
    CharOctet(Padded(a.callsign)[i]);
  }

  lemma SsidOctet(a: Address)
    requires a.ssid < 16
    ensures var o := EncodeAddress(a)[6];
            && ((o >> 1) & 0x0F) as nat == a.ssid && o & 0x60 == 0x60
            && (o & 0x80 == 0x80 <==> a.ch) && (o & 0x01 == 0x01 <==> a.end)
  {
    SsidRoundTrip(a.ssid, a.ch, a.end);
    SsidBits(SsidByte(a.ssid, a.ch, a.end));
    ReservedBits(Bit(a.ch), (a.ssid % 16) as byte, Bit(a.end));
  }

  lemma ReservedBits(c: byte, s: byte, e: byte)
    ensures (0x60 | (c << 7) | (s << 1) | e) & 0x60 == 0x60
  {}

  lemma CharOctet(c: char)
    requires c as int < 128
    ensures ShiftUp(Ascii(c)) as nat == 2 * (c as nat)
  {
    AsciiSmall(c);
    Doubled(Ascii(c));
    N.ValueOfOctet(Code(c));
    N.ValueAsNat(Ascii(c));
  }

  /** Two addresses, the end bit on the second, then control, PID if there is one, and information. */
  lemma FrameOctets(f: Frame)
    requires f.repeaters == []
    ensures EncodeFrame(f) ==
            EncodeAddress(f.dest.(end := false)) + EncodeAddress(f.src.(end := true)) + [f.control] +
            (if f.pid.Some? then [f.pid.value] else []) + f.info
  {
    var xs := Ended(Addresses(f));
    assert xs == [f.dest.(end := false), f.src.(end := true)];
    assert xs[1..] == [xs[1]] && xs[1..][1..] == [];
    assert EncodeAddresses(xs[1..]) == EncodeAddress(xs[1]) + [];
    assert EncodeAddresses(xs) == EncodeAddress(xs[0]) + EncodeAddress(xs[1]);
  }

  /** A command has the C bit in its destination, a response in its source. */
  predicate IsCommand(f: Frame) { f.dest.ch && !f.src.ch }

  predicate IsResponse(f: Frame) { !f.dest.ch && f.src.ch }

  /** The frames without numbers: none of them ever has P/F set. */
  lemma UnnumberedFrames(d: Address, s: Address)
    ensures SabmFrame(d, s).control == 0x2F && IsCommand(SabmFrame(d, s)) && SabmFrame(d, s).info == []
    ensures DiscFrame(d, s).control == 0x43 && IsCommand(DiscFrame(d, s)) && DiscFrame(d, s).info == []
    ensures UaFrame(d, s).control == 0x63 && IsResponse(UaFrame(d, s)) && UaFrame(d, s).info == []
    ensures DmFrame(d, s).control == 0x0F && IsResponse(DmFrame(d, s)) && DmFrame(d, s).info == []
  {}

  /** I frames are commands with the PID for no layer 3. */
  lemma InformationFrames(d: Address, s: Address, ns: nat, nr: nat, info: Bytes)
    requires ns < 8 && nr < 8
    ensures var f := IFrame(d, s, ns, nr, info);
            && IsCommand(f) && f.pid == Some(0xF0) && f.info == info
            && f.control & 0x11 == 0 && ((f.control & 0x0E) >> 1) as nat == ns && (f.control >> 5) as nat == nr
  {
    ICtrlFields(ns, nr, false);
    FieldsOf(ICtrl(ns, nr, false));
    LowBits(ICtrl(ns, nr, false));
  }

  /** Supervisory frames are commands or responses, as the caller says. */
  lemma SupervisoryFrames(d: Address, s: Address, nr: nat, pf: bool, command: bool)
    requires nr < 8
    ensures IsS(RrFrame(d, s, nr, pf, command), 0x01, nr, pf, command)
    ensures IsS(RejFrame(d, s, nr, pf, command), 0x09, nr, pf, command)
  {
    SOctet(0x01, nr, pf);
    SOctet(0x09, nr, pf);
  }

  predicate IsS(f: Frame, low: byte, nr: nat, pf: bool, command: bool) {
    && (if command then IsCommand(f) else IsResponse(f)) && f.pid == None && f.info == []
    && f.control & 0x0F == low && (f.control & 0x10 == 0x10 <==> pf) && (f.control >> 5) as nat == nr
  }

  lemma SOctet(low: byte, nr: nat, pf: bool)
    requires nr < 8 && (low == 0x01 || low == 0x09)
    ensures var c := SCtrl(low, nr, pf);
            c & 0x0F == low && (c & 0x10 == 0x10 <==> pf) && (c >> 5) as nat == nr
  {
    SCtrlFields(low, nr, pf);
    FieldsOf(SCtrl(low, nr, pf));
    NumberedTypes(SCtrl(low, nr, pf));
  }

  lemma LowBits(c: byte)
    requires c & 0x01 == 0 && c & 0x10 != 0x10
    ensures c & 0x11 == 0
  {}
}
