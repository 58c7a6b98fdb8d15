/** What a KISS decoder may deliver from any octets: frames that stand whole, correctly escaped, between two
    FENDs of one read, and nothing else. Octets are written out as numbers. */
module KissSound {
  import opened Common
  import opened Kiss
  import opened KissReads

  // ---- the octets of a frame -----------------------------------------------------------------------------

  /** One octet as it is sent. */
  function Sent(x: byte): Bytes {
    if x == 0xC0 then [0xDB, 0xDC] else if x == 0xDB then [0xDB, 0xDD] else [x]
  }

  lemma {:induction false} EscapeIs(data: Bytes)
    ensures Escape(data) == Flat(seq(|data|, i requires 0 <= i < |data| => Sent(data[i])))
    decreases |data|
  {
    if data != [] {
      var all := seq(|data|, i requires 0 <= i < |data| => Sent(data[i]));
      EscapeIs(data[1..]);
      assert all[1..] == seq(|data[1..]|, i requires 0 <= i < |data[1..]| => Sent(data[1..][i]));
    }
  }

  /** 0xC0, port and command in one octet, the data escaped, 0xC0. */
  lemma EncodeIs(f: Frame)
    ensures var e := Encode(f);
            && |e| == |Escape(f.data)| + 3 && e[0] == 0xC0 && e[|e| - 1] == 0xC0
            && e[1] >> 4 == f.port & 0x0F && e[1] & 0x0F == f.cmd & 0x0F && e[2..|e| - 1] == Escape(f.data)
  {
    Halves(f.port, f.cmd);
  }

  lemma Halves(port: byte, cmd: byte)
    ensures (((port & 0x0F) << 4) | (cmd & 0x0F)) >> 4 == port & 0x0F
    ensures (((port & 0x0F) << 4) | (cmd & 0x0F)) & 0x0F == cmd & 0x0F
  {}

  // ---- one stretch ---------------------------------------------------------------------------------------

  /** The stretch is a frame without its FENDs. */
  predicate Carries(raw: Bytes, f: Frame) {
    raw != [] && f.port == raw[0] >> 4 && f.cmd == raw[0] & 0x0F && raw[1..] == Escape(f.data)
  }

  lemma HighHalf(b: byte)
    ensures (b >> 4) & 0x0F == b >> 4
  {}

  /** It is delivered exactly if it is one. */
  lemma ReadExactly(raw: Bytes, f: Frame)
    ensures Read(raw) == [f] <==> Carries(raw, f)
    ensures |Read(raw)| <= 1
  {
    if raw != [] {
      HighHalf(raw[0]);
      UnescapeEscape(f.data);
      if Unescape(raw[1..]).Some? { EscapeUnescape(raw[1..]); }
    }
  }

  // ---- any octets ----------------------------------------------------------------------------------------

  /** A FEND, the stretch, and a FEND that is not the first of the next. */
  ghost predicate Cuts(buf: Bytes, z: Bytes, raw: Bytes, more: Bytes) {
    buf == z + ([0xC0] + (raw + ([0xC0] + more))) && raw != [] && 0xC0 !in raw
  }

  /** `raws` are cut out of `buf` in this order; `rest` is its end. */
  ghost predicate Carved(buf: Bytes, raws: seq<Bytes>, rest: Bytes)
    decreases |raws|
  {
    if raws == [] then exists z: Bytes :: buf == z + rest
    else exists z, more :: Cuts(buf, z, raws[0], more) && Carved(more, raws[1..], rest)
  }

  lemma FendBefore(buf: Bytes, start: nat)
    requires start == Until(buf) < |buf|
    ensures Leading(buf[start..]) > 0
  {
    assert buf[start..][0] == FEND;
  }

  lemma {:induction false} LeadingAre(buf: Bytes, k: nat)
    requires k < Leading(buf)
    ensures buf[k] == FEND
    decreases k
  {
    if k > 0 { LeadingAre(buf[1..], k - 1); }
  }

  /** Behind the FENDs: `body`, and the last of them in front of it. */
  lemma FrontOf(buf: Bytes, start: nat, at: Bytes, lead: nat, body: Bytes)
    requires start <= |buf| && at == buf[start..] && 0 < lead <= |at| && at[lead - 1] == 0xC0 && body == at[lead..]
    ensures buf == buf[..start + lead - 1] + ([0xC0] + body)
  {
    assert at == at[..lead - 1] + ([at[lead - 1]] + body);
  }

  /** Everything that is cut off stands between two FENDs. */
  lemma {:induction false} SplitCarved(buf: Bytes)
    ensures Carved(buf, Split(buf).raws, Split(buf).rest)
    decreases |buf|, 1
  {
    var start := Until(buf);
    if start == |buf| {
      assert buf == [] + buf;
    } else {
      var at := buf[start..];
      FendBefore(buf, start);
      LeadingAre(at, Leading(at) - 1);
      FrontOf(buf, start, at, Leading(at), at[Leading(at)..]);
      BodyCarved(buf, buf[..start + Leading(at) - 1], at[Leading(at)..]);
    }
  }

  lemma {:induction false} BodyCarved(buf: Bytes, z: Bytes, body: Bytes)
    requires Until(buf) < |buf| && body == buf[Until(buf)..][Leading(buf[Until(buf)..])..]
    requires buf == z + ([0xC0] + body) && (body != [] ==> body[0] != 0xC0)
    ensures Carved(buf, Split(buf).raws, Split(buf).rest)
    decreases |buf|, 0
  {
    var end := Until(body);
    if end == |body| {
      SplitWaits(buf, body);
      Chain(z, [0xC0], body);
    } else {
      var raw, more := body[..end], body[end + 1..];
      StretchCut(buf, z, body, end);
      SplitCarved(more);
      SplitBody(buf, body, end, raw, more);
      FirstCarved(buf, z, raw, more, Split(more));
    }
  }

  lemma StretchCut(buf: Bytes, z: Bytes, body: Bytes, end: nat)
    requires buf == z + ([0xC0] + body) && 0 < end < |body| && body[end] == 0xC0 && 0xC0 !in body[..end]
    ensures Cuts(buf, z, body[..end], body[end + 1..])
  {
    assert body == body[..end] + ([0xC0] + body[end + 1..]);
  }

  lemma FirstCarved(buf: Bytes, z: Bytes, raw: Bytes, more: Bytes, cut: Cut)
    requires Cuts(buf, z, raw, more) && Carved(more, cut.raws, cut.rest)
    ensures Carved(buf, [raw] + cut.raws, cut.rest)
  {
    var all := [raw] + cut.raws;
    assert Cuts(buf, z, all[0], more) && all[1..] == cut.raws;
    assert Carved(more, all[1..], cut.rest);
  }

  /** A frame stands in `buf`, whole and between two FENDs. */
  ghost predicate Stands(buf: Bytes, f: Frame) {
    exists z, raw, more :: Cuts(buf, z, raw, more) && Carries(raw, f)
  }

  lemma {:induction false} CarvedStands(buf: Bytes, raws: seq<Bytes>, rest: Bytes, i: nat, f: Frame)
    requires Carved(buf, raws, rest) && i < |raws| && Carries(raws[i], f)
    ensures Stands(buf, f)
    decreases i
  {
    var z, more :| Cuts(buf, z, raws[0], more) && Carved(more, raws[1..], rest);
    if i > 0 {
      CarvedStands(more, raws[1..], rest, i - 1, f);
      var y, raw, later :| Cuts(more, y, raw, later) && Carries(raw, f);
      Chain(z, [0xC0] + (raws[0] + [0xC0]) + y, [0xC0] + (raw + ([0xC0] + later)));
      assert buf == z + ([0xC0] + (raws[0] + [0xC0]) + y) + ([0xC0] + (raw + ([0xC0] + later)));
      assert Cuts(buf, z + ([0xC0] + (raws[0] + [0xC0]) + y), raw, later);
    }
  }

  lemma {:induction false} ReadFrom(raws: seq<Bytes>, f: Frame) returns (raw: Bytes)
    requires f in ReadAll(raws)
    ensures raw in raws && Carries(raw, f)
    decreases |raws|
  {
    if f in Read(raws[0]) {
      ReadExactly(raws[0], f);
      raw := raws[0];
    } else {
      raw := ReadFrom(raws[1..], f);
    }
  }

  /** Each stretch was cut off by one of the reads. */
  lemma {:induction false} EachRaw(chunks: seq<Bytes>, raw: Bytes) returns (c: Bytes)
    requires raw in Each(chunks)
    ensures c in chunks && raw in Split(c).raws
    decreases |chunks|
  {
    if raw in Split(chunks[0]).raws {
      c := chunks[0];
    } else {
      c := EachRaw(chunks[1..], raw);
    }
  }

  /** Whatever is read: a frame delivered stands whole within one read. */
  lemma NothingElse(chunks: seq<Bytes>, f: Frame)
    requires f in Feed([], chunks).frames
    ensures exists c :: c in chunks && Stands(c, f)
  {
    ReadsAreIndependent([], chunks);
    var raw := ReadFrom(Each(chunks), f);
    var c := EachRaw(chunks, raw);
    var i :| 0 <= i < |Split(c).raws| && Split(c).raws[i] == raw;
    SplitCarved(c);
    CarvedStands(c, Split(c).raws, Split(c).rest, i, f);
  }

  /** What is true of `Split`, for any way of cutting stretches off. */
  ghost predicate CutsFirst(cut: Bytes -> seq<Bytes>) {
    && (forall n: nat :: cut(Fends(n)) == [])
    && (forall g: nat, raw, x :: Solid(raw) ==> cut(Fends(g) + (Framed(raw) + x)) == [raw] + cut(x))
  }

  lemma {:induction false} LineCut(cut: Bytes -> seq<Bytes>, raws: seq<Bytes>, gaps: seq<nat>)
    requires |gaps| == |raws| + 1 && AllSolid(raws) && CutsFirst(cut)
    ensures cut(Line(raws, gaps)) == raws
    decreases |raws|
  {
    if raws != [] {
      assert Solid(raws[0]);
      LineCut(cut, raws[1..], gaps[1..]);
      assert raws == [raws[0]] + raws[1..];
    }
  }

  /** In one read, stretches that are no frames are left out and harm no others. */
  lemma BadOnesSkipped(raws: seq<Bytes>, gaps: seq<nat>)
    requires |gaps| == |raws| + 1 && AllSolid(raws)
    ensures Decode(Line(raws, gaps)).frames == ReadAll(raws)
  {
    var cut := (b: Bytes) => Split(b).raws;
    forall n: nat ensures cut(Fends(n)) == [] { OnlyFends(n); }
    forall g: nat, raw, x | Solid(raw) ensures cut(Fends(g) + (Framed(raw) + x)) == [raw] + cut(x) {
      FirstRaw(g, raw, x, Split(x).raws);
    }
    LineCut(cut, raws, gaps);
  }

  lemma FirstRaw(g: nat, raw: Bytes, x: Bytes, later: seq<Bytes>)
    requires Solid(raw) && Split(x).raws == later
    ensures Split(Fends(g) + (Framed(raw) + x)).raws == [raw] + later
  {
    FirstCut([], g, raw, x);
    var all := Fends(g) + (Framed(raw) + x);
    assert [] + all == all;
  }

  // ---- a shared FEND -------------------------------------------------------------------------------------

  /** Two frames with a single FEND between them: the FEND is used up with the first, and the second is passed
      over as noise. */
  lemma SharedFendHides(raw: Bytes, next: Bytes)
    requires Solid(raw) && Solid(next)
    ensures Split(Fends(1) + (raw + [FEND] + (next + [FEND]))).raws == [raw]
  {
    SplitStretch(1, raw, next + [FEND]);
    NoiseIgnored(next, [FEND]);
    assert Fends(1) == [FEND];
    OnlyFends(1);
  }
}
