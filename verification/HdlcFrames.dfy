/** The extractor on real frames: what a transmitter puts on the air is found again, whatever chunks
    the bits arrive in; and the two loops of the extractor itself. */
module HdlcFrames {
  import opened Common
  import opened Bits
  import opened Crc
  import opened CrcLoop
  import opened BitLoops
  import opened Hdlc
  import opened HdlcStream

  /** The payload a stretch between two flags carries, if it is a good frame. */
  function Payload(piece: seq<bool>): Option<Bytes> {
    if piece == [] then None
    else
      var bits := Unstuff(piece, 0);
      if bits.None? then None
      else
        var raw := BitsToBytes(bits.value);
        if VerifyFcs(raw) then Some(raw[..|raw| - 2]) else None
  }

  function Extract(bits: seq<bool>): Extracted { ExtractWith(Payload, bits) }

  // ---- what is on the air -----------------------------------------------------------------------------

  /** Between two flags there is a frame, or nothing (an extra flag). */
  type Slot = Option<Bytes>

  function Piece(slot: Slot): seq<bool> {
    if slot.None? then [] else Body(slot.value)
  }

  function Pieces(slots: seq<Slot>): seq<seq<bool>> {
    if slots == [] then [] else [Piece(slots[0])] + Pieces(slots[1..])
  }

  /** Each stretch with its closing flag. */
  function Framed(pieces: seq<seq<bool>>): seq<bool> {
    if pieces == [] then [] else pieces[0] + Flag() + Framed(pieces[1..])
  }

  function OnAir(slots: seq<Slot>): seq<bool> { Flag() + Framed(Pieces(slots)) }

  /** The payloads sent, without the empty ones. */
  function Sent(slots: seq<Slot>): seq<Bytes> {
    if slots == [] then []
    else (if slots[0].Some? && slots[0].value != [] then [slots[0].value] else []) + Sent(slots[1..])
  }

  // ---- no false flags ---------------------------------------------------------------------------------

  /** Stuffed bits hold no flag, and none straddles their end: the first flag is the closing one. */
  lemma {:induction false} SeekBody(body: seq<bool>, ones: nat, tail: seq<bool>)
    requires RunsOk(body, ones)
    ensures Seek(body + Flag() + tail) == Some(|body|)
    decreases |body|
  {
    var all := body + Flag() + tail;
    if body == [] {
      assert IsFlag(all);
    } else {
      assert all[1..] == body[1..] + Flag() + tail;
      if IsFlag(all) { SixOnes(body, tail); }
      SeekBody(body[1..], if body[0] then ones + 1 else 0, tail);
    }
  }

  lemma SixOnes(body: seq<bool>, tail: seq<bool>)
    requires body != [] && !body[0] && RunsOk(body[1..], 0)
    ensures !IsFlag(body + Flag() + tail)
  {
    var all := body + Flag() + tail;
    if |body| < 7 {
      assert !all[|body|];
    } else if IsFlag(all) {
      assert forall i :: 0 <= i < 6 ==> body[1..][i] == all[i + 1];
      LeadingOnes(body[1..], 0, 6);
    }
  }

  /** No stretch has six 1s in a row. */
  ghost predicate Quiet(pieces: seq<seq<bool>>) {
    forall i :: 0 <= i < |pieces| ==> RunsOk(pieces[i], 0)
  }

  lemma PieceRunsOk(slot: Slot)
    ensures RunsOk(Piece(slot), 0)
  {
    if slot.Some? { StuffedRunsOk(BytesToBits(AppendFcs(slot.value)), 0); }
  }

  lemma {:induction false} PiecesQuiet(slots: seq<Slot>)
    ensures Quiet(Pieces(slots)) && |Pieces(slots)| == |slots|
    ensures forall i :: 0 <= i < |slots| ==> Pieces(slots)[i] == Piece(slots[i])
    decreases |slots|
  {
    if slots != [] {
      PieceRunsOk(slots[0]);
      PiecesQuiet(slots[1..]);
    }
  }

  lemma SplitPiece(piece: seq<bool>, tail: seq<bool>)
    requires RunsOk(piece, 0)
    ensures Split(piece + Flag() + tail) == Join([piece], Split(tail))
  {
    SeekBody(piece, 0, tail);
    var all := piece + Flag() + tail;
    assert all[..|piece|] == piece;
    assert all[|piece| + 8..] == tail;
  }

  lemma {:induction false} SplitFramed(pieces: seq<seq<bool>>)
    requires Quiet(pieces)
    ensures Split(Framed(pieces)) == Cut(pieces, [])
    decreases |pieces|
  {
    if pieces != [] {
      SplitPiece(pieces[0], Framed(pieces[1..]));
      SplitFramed(pieces[1..]);
      assert pieces == [pieces[0]] + pieces[1..];
    }
  }

  lemma {:induction false} FramedConcat(xs: seq<seq<bool>>, ys: seq<seq<bool>>)
    ensures Framed(xs + ys) == Framed(xs) + Framed(ys)
    decreases |xs|
  {
    if xs == [] {
      assert xs + ys == ys;
    } else {
      assert (xs + ys)[1..] == xs[1..] + ys;
      FramedConcat(xs[1..], ys);
    }
  }

  // ---- a single call ----------------------------------------------------------------------------------

  lemma PayloadOfPiece(slot: Slot)
    ensures Payload(Piece(slot)) == if slot.Some? && slot.value != [] then slot else None
  {
    if slot.Some? {
      var f := AppendFcs(slot.value);
      UnstuffStuff(BytesToBits(f));
      PackUnpack(f);
      assert |Piece(slot)| >= 16;
      if slot.value != [] {
        AppendedVerifies(slot.value);
        assert f[..|f| - 2] == slot.value;
      }
    }
  }

  lemma {:induction false} GatherSent(slots: seq<Slot>)
    ensures Gather(Payload, Pieces(slots)) == Sent(slots)
    decreases |slots|
  {
    if slots != [] {
      GatherSent(slots[1..]);
      PayloadOfPiece(slots[0]);
      assert Pieces(slots)[1..] == Pieces(slots[1..]);
    }
  }

  /** One call on flag, stretch, flag, stretch, flag: every stretch is tried, and one flag is left over. */
  lemma AllTried(pieces: seq<seq<bool>>)
    requires Quiet(pieces)
    ensures Extract(Flag() + Framed(pieces)) == Extracted(Gather(Payload, pieces), Flag())
    ensures Whole(Payload, Flag() + Framed(pieces)) == Extracted(Gather(Payload, pieces), Flag())
  {
    FlagFirst(Framed(pieces));
    SplitFramed(pieces);
    assert ([[]] + pieces)[1..] == pieces;
    assert Flag() + [] == Flag();
  }

  /** All payloads but empty ones come out of one call, in order. */
  lemma AllFound(slots: seq<Slot>)
    ensures Extract(OnAir(slots)) == Extracted(Sent(slots), Flag())
    ensures Whole(Payload, OnAir(slots)) == Extracted(Sent(slots), Flag())
  {
    PiecesQuiet(slots);
    AllTried(Pieces(slots));
    GatherSent(slots);
  }

  // ---- any chunks -------------------------------------------------------------------------------------

  /** Every stretch fits the remainder buffer, with fifteen bits to spare for the flags. */
  ghost predicate Fit(pieces: seq<seq<bool>>) {
    Quiet(pieces) && forall i :: 0 <= i < |pieces| ==> |pieces[i]| + 15 <= MAX_REMAINDER_BITS
  }

  lemma PrefixBeforeFlag(body: seq<bool>, tail: seq<bool>, part: seq<bool>)
    requires RunsOk(body, 0) && part <= body + Flag() + tail && |part| < |body| + 8
    ensures Seek(part) == None
  {
    var all := body + Flag() + tail;
    assert part + all[|part|..] == all;
    SeekBody(body, 0, tail);
    if Seek(part).Some? { SeekMore(part, all[|part|..]); }
  }

  /** Wherever the stream is cut off, little follows the last flag. */
  lemma {:induction false} RestFits(pieces: seq<seq<bool>>, part: seq<bool>)
    requires Fit(pieces) && part <= Framed(pieces)
    ensures |Split(part).rest| + 8 <= MAX_REMAINDER_BITS
    decreases |pieces|
  {
    if pieces != [] {
      var body, tail := pieces[0], Framed(pieces[1..]);
      if |part| < |body| + 8 {
        PrefixBeforeFlag(body, tail, part);
      } else {
        var later := part[|body| + 8..];
        assert part == body + Flag() + later;
        SplitPiece(body, later);
        assert later <= tail;
        RestFits(pieces[1..], later);
      }
    }
  }

  /** The same for the stream with its opening flag. */
  lemma PrefixFits(pieces: seq<seq<bool>>, part: seq<bool>)
    requires Fit(pieces) && part <= Flag() + Framed(pieces)
    ensures if Split(part).pieces == [] then |part| < 8 else |Split(part).rest| + 8 <= MAX_REMAINDER_BITS
  {
    if |part| >= 8 {
      var later := part[8..];
      BehindFirstFlag(part, later, Framed(pieces));
      FlagFirst(later);
      RestFits(pieces, later);
    }
  }

  lemma BehindFirstFlag(part: seq<bool>, later: seq<bool>, all: seq<bool>)
    requires part <= Flag() + all && |part| >= 8 && later == part[8..]
    ensures part == Flag() + later && later <= all
  {
    assert part[..8] == (Flag() + all)[..8] == Flag();
    assert later == (Flag() + all)[8..|part|] == all[..|part| - 8];
  }

  /** What follows the last flag is the same, seen from the remainder or from the whole stream. */
  lemma SameRest(seen: seq<bool>, rest: seq<bool>, chunk: seq<bool>)
    requires Stands(seen, rest)
    ensures Split(seen + chunk).pieces == [] ==> Split(rest + chunk).pieces == [] && |rest + chunk| <= |seen + chunk|
    ensures Split(seen + chunk).pieces != [] ==>
              Split(rest + chunk).pieces != [] && Split(rest + chunk).rest == Split(seen + chunk).rest
  {
    var cut := Split(seen);
    if cut.pieces == [] {
      SplitTail(seen, |seen| - |rest|, chunk, seen + chunk, rest + chunk);
    } else {
      SplitMore(seen, chunk);
      BehindFlag(cut.rest, chunk);
    }
  }

  /** No call on such a stream drops a bit. */
  lemma {:induction false} NeverTrims(
      pieces: seq<seq<bool>>, seen: seq<bool>, rest: seq<bool>, chunks: seq<seq<bool>>)
    requires Fit(pieces) && seen + Flat(chunks) <= Flag() + Framed(pieces) && Stands(seen, rest)
    ensures Never(Trims, Extract, rest, chunks)
    decreases |chunks|
  {
    if chunks != [] {
      var all := seen + chunks[0];
      assert seen + Flat(chunks) == all + Flat(chunks[1..]);
      PrefixFits(pieces, all);
      SameRest(seen, rest, chunks[0]);
      StepFinds(Payload, seen, rest, chunks[0]);
      NeverTrims(pieces, all, Extract(rest + chunks[0]).rest, chunks[1..]);
    }
  }

  /** Received in any chunks, even bit by bit, the stream gives what one call on all of it gives. */
  lemma AnyChunksTried(pieces: seq<seq<bool>>, chunks: seq<seq<bool>>)
    requires Fit(pieces) && Flat(chunks) == Flag() + Framed(pieces)
    ensures Feed(Extract, [], chunks) == Extracted(Gather(Payload, pieces), Flag())
  {
    NeverTrimsAny(pieces, chunks);
    AllTried(pieces);
    FeedIsWhole(Flag() + Framed(pieces), chunks);
  }

  lemma NeverTrimsAny(pieces: seq<seq<bool>>, chunks: seq<seq<bool>>)
    requires Fit(pieces) && Flat(chunks) == Flag() + Framed(pieces)
    ensures Never(Trims, Extract, [], chunks)
  {
    StartOf(Flag() + Framed(pieces), chunks);
    NeverTrims(pieces, [], [], chunks);
  }

  lemma StartOf(bits: seq<bool>, chunks: seq<seq<bool>>)
    requires Flat(chunks) == bits
    ensures [] + Flat(chunks) <= bits && Stands([], [])
  {}

  lemma FeedIsWhole(bits: seq<bool>, chunks: seq<seq<bool>>)
    requires Never(Trims, Extract, [], chunks) && Flat(chunks) == bits
    ensures Feed(Extract, [], chunks) == Whole(Payload, bits)
  {
    StreamingAll(Payload, Extract, chunks);
  }

  /** Sent as a stream of frames and flags and received in any chunks, the payloads come out exactly,
      in order, and one flag is left over. */
  lemma AnyChunks(slots: seq<Slot>, chunks: seq<seq<bool>>)
    requires Fit(Pieces(slots)) && Flat(chunks) == OnAir(slots)
    ensures Feed(Extract, [], chunks) == Extracted(Sent(slots), Flag())
  {
    AnyChunksTried(Pieces(slots), chunks);
    GatherSent(slots);
  }

  // ---- how long a payload may be ------------------------------------------------------------------------

  lemma {:induction false} StuffedLength(bits: seq<bool>, ones: nat)
    requires ones < 5
    ensures 5 * |Stuff(bits, ones)| <= 6 * |bits| + ones
    decreases |bits|
  {
    if bits != [] {
      StuffedLength(bits[1..], if !bits[0] || ones == 4 then 0 else ones + 1);
    }
  }

  /** Payloads of up to 849 octets always fit; the longest AX.25 frame has some 330. */
  lemma ShortFramesFit(slots: seq<Slot>)
    requires forall i :: 0 <= i < |slots| && slots[i].Some? ==> |slots[i].value| <= 849
    ensures Fit(Pieces(slots))
  {
    PiecesQuiet(slots);
    forall i | 0 <= i < |slots| ensures |Piece(slots[i])| + 15 <= MAX_REMAINDER_BITS {
      if slots[i].Some? { StuffedLength(BytesToBits(AppendFcs(slots[i].value)), 0); }
    }
  }

  // ---- the loops ---------------------------------------------------------------------------------------

  method ExtractHdlcFrames(bits: seq<bool>) returns (frames: seq<Bytes>, remainder: seq<bool>)
    ensures Extracted(frames, remainder) == Extract(bits)
  {
    frames := [];
    var positions := FlagPositions(bits);
    ghost var cut := Split(bits);
    if |positions| == 0 {
      if |bits| > MAX_REMAINDER_BITS {
        return frames, bits[|bits| - 7..];
      }
      return frames, bits;
    }
    if |positions| < 2 {
      remainder := bits[positions[0]..];
      if |remainder| > MAX_REMAINDER_BITS {
        return frames, bits[|bits| - 7..];
      }
      return frames, remainder;
    }
    frames := DecodePieces(bits, positions, cut);
    remainder := bits[positions[|positions| - 1]..];
  }

  /** The loop over neighbouring flags. */
  method DecodePieces(bits: seq<bool>, positions: seq<nat>, ghost cut: Cut) returns (frames: seq<Bytes>)
    requires |positions| > 0 && Marks(bits, positions, cut)
    ensures frames == Gather(Payload, cut.pieces[1..])
  {
    frames := [];
    assert [] + Gather(Payload, cut.pieces[1..]) == Gather(Payload, cut.pieces[1..]);
    for k := 0 to |positions| - 1
      invariant frames + Gather(Payload, cut.pieces[k + 1..]) == Gather(Payload, cut.pieces[1..])
    {
      ghost var left := cut.pieces[k + 1..];
      assert left[1..] == cut.pieces[k + 2..];
      var stuffed := bits[positions[k] + 8..positions[k + 1]];
      assert stuffed == left[0];
      GatherNext(Payload, frames, left);
      var payload := DecodePiece(stuffed);
      if payload.Some? {
        frames := frames + [payload.value];
      }
    }
    assert frames + [] == frames;
  }

  lemma GatherNext(decode: Decoder, frames: seq<Bytes>, pieces: seq<seq<bool>>)
    requires pieces != []
    ensures frames + Gather(decode, pieces) ==
            (if decode(pieces[0]).Some? then frames + [decode(pieces[0]).value] else frames) + Gather(decode, pieces[1..])
  {}

  /** The stretch between two flags, decoded. */
  method DecodePiece(stuffed: seq<bool>) returns (payload: Option<Bytes>)
    ensures payload == Payload(stuffed)
  {
    if stuffed == [] { return None; }
    var unstuffed := BitUnstuff(stuffed);
    if unstuffed.None? { return None; }
    var raw := BitsToBytesLsb(unstuffed.value);
    var ok := VerifyFcsOctets(raw);
    if ok { return Some(raw[..|raw| - 2]); }
    return None;
  }

  /** The stretch before flag `k`, and the flags in increasing order. */
  ghost predicate Marks(bits: seq<bool>, positions: seq<nat>, cut: Cut) {
    && |cut.pieces| == |positions|
    && (forall k :: 0 <= k < |positions| ==> positions[k] + 8 <= |bits|)
    && (forall k :: 0 <= k < |positions| - 1 ==>
          positions[k] + 8 <= positions[k + 1] && cut.pieces[k + 1] == bits[positions[k] + 8..positions[k + 1]])
    && (if positions == [] then cut.rest == bits
        else bits[positions[|positions| - 1]..] == Flag() + cut.rest)
  }

  /** The scan has got to `i`; the flags before it have been noted, the last of them ends at `from`. */
  ghost predicate Scanned(bits: seq<bool>, positions: seq<nat>, pieces: seq<seq<bool>>, from: nat, i: nat)
    requires from <= i <= |bits|
  {
    && Split(bits) == Join(pieces, Split(bits[from..]))
    && SameFlag(bits, from, i)
    && Marks(bits, positions, Cut(pieces, bits[from..]))
    && from == (if positions == [] then 0 else positions[|positions| - 1] + 8)
  }

  /** From `i` on the same flag is found as from `from` on. */
  ghost predicate SameFlag(bits: seq<bool>, from: nat, i: nat)
    requires from <= i <= |bits|
  {
    Seek(bits[from..]) == if Seek(bits[i..]).None? then None else Some(Seek(bits[i..]).value + i - from)
  }

  lemma FlagSlice(bits: seq<bool>, i: nat)
    requires i + 8 <= |bits|
    ensures IsFlag(bits[i..]) <==> bits[i..i + 8] == Flag()
    ensures bits[i..i + 8] == Flag() ==> bits[i..] == Flag() + bits[i + 8..]
  {
    assert forall k :: 0 <= k < 8 ==> bits[i..][k] == bits[i..i + 8][k];
    assert bits[i..] == bits[i..i + 8] + bits[i + 8..];
  }

  lemma SplitHere(bits: seq<bool>, at: nat, piece: seq<bool>, after: seq<bool>)
    requires Seek(bits) == Some(at) && piece == bits[..at] && after == bits[at + 8..]
    ensures Split(bits) == Join([piece], Split(after))
  {}

  lemma SplitMark(bits: seq<bool>, pieces: seq<seq<bool>>, from: nat, i: nat)
    requires from <= i && i + 8 <= |bits|
    requires Seek(bits[from..]) == Some(i - from)
    requires Split(bits) == Join(pieces, Split(bits[from..]))
    ensures Split(bits) == Join(pieces + [bits[from..i]], Split(bits[i + 8..]))
  {
    var on, later := bits[from..], bits[i + 8..];
    assert on[..i - from] == bits[from..i] && on[i - from + 8..] == later;
    SplitOn(Split(bits), pieces, on, i - from, bits[from..i], later);
  }

  lemma SplitOn(all: Cut, pieces: seq<seq<bool>>, on: seq<bool>, i: nat, piece: seq<bool>, later: seq<bool>)
    requires all == Join(pieces, Split(on))
    requires i + 8 <= |on| && Seek(on) == Some(i) && piece == on[..i] && later == on[i + 8..]
    ensures all == Join(pieces + [piece], Split(later))
  {
    SplitHere(on, i, piece, later);
    JoinJoin(pieces, [piece], Split(later));
  }

  lemma OneMoreMark(bits: seq<bool>, positions: seq<nat>, pieces: seq<seq<bool>>, from: nat, i: nat, rest: seq<bool>)
    requires from <= i && i + 8 <= |bits| && bits[i..] == Flag() + rest
    requires from == if positions == [] then 0 else positions[|positions| - 1] + 8
    requires Marks(bits, positions, Cut(pieces, bits[from..]))
    ensures Marks(bits, positions + [i], Cut(pieces + [bits[from..i]], rest))
  {}

  lemma FlagFound(bits: seq<bool>, positions: seq<nat>, pieces: seq<seq<bool>>, from: nat, i: nat)
    requires from <= i && i + 8 <= |bits| && bits[i..i + 8] == Flag()
    requires Scanned(bits, positions, pieces, from, i)
    ensures Scanned(bits, positions + [i], pieces + [bits[from..i]], i + 8, i + 8)
  {
    FlagSlice(bits, i);
    assert Seek(bits[i..]) == Some(0);
    SplitMark(bits, pieces, from, i);
    OneMoreMark(bits, positions, pieces, from, i, bits[i + 8..]);
  }

  lemma NoFlagFound(bits: seq<bool>, positions: seq<nat>, pieces: seq<seq<bool>>, from: nat, i: nat)
    requires from <= i && i + 8 <= |bits| && bits[i..i + 8] != Flag()
    requires Scanned(bits, positions, pieces, from, i)
    ensures Scanned(bits, positions, pieces, from, i + 1)
  {
    SeekOnFrom(bits, i);
    SeekShift(bits, from, i);
  }

  lemma SeekOnFrom(bits: seq<bool>, i: nat)
    requires i + 8 <= |bits| && bits[i..i + 8] != Flag()
    ensures SameFlag(bits, i, i + 1)
  {
    FlagSlice(bits, i);
    SeekOn(bits[i..], bits[i + 1..]);
  }

  lemma SeekShift(bits: seq<bool>, from: nat, i: nat)
    requires from <= i < |bits| && SameFlag(bits, from, i) && SameFlag(bits, i, i + 1)
    ensures SameFlag(bits, from, i + 1)
  {}

  lemma SeekOn(bits: seq<bool>, later: seq<bool>)
    requires |bits| >= 8 && !IsFlag(bits) && later == bits[1..]
    ensures Seek(bits) == if Seek(later).None? then None else Some(Seek(later).value + 1)
  {}

  lemma ScanStarts(bits: seq<bool>)
    ensures Scanned(bits, [], [], 0, 0)
  {
    assert bits[0..] == bits;
    JoinNone(Split(bits));
  }

  lemma ScanEnds(bits: seq<bool>, positions: seq<nat>, pieces: seq<seq<bool>>, from: nat, i: nat)
    requires from <= i <= |bits| < i + 8
    requires Scanned(bits, positions, pieces, from, i)
    ensures Marks(bits, positions, Split(bits))
  {
    assert Split(bits[from..]) == Cut([], bits[from..]);
    assert pieces + [] == pieces;
  }

  method FlagPositions(bits: seq<bool>) returns (positions: seq<nat>)
    ensures Marks(bits, positions, Split(bits))
  {
    positions := [];
    var i: nat := 0;
    ghost var from: nat, pieces: seq<seq<bool>> := 0, [];
    ScanStarts(bits);
    while i + 8 <= |bits|
      invariant from <= i <= |bits|
      invariant Scanned(bits, positions, pieces, from, i)
      decreases |bits| - i
    {
      if bits[i..i + 8] == Flag() {
        FlagFound(bits, positions, pieces, from, i);
        pieces := pieces + [bits[from..i]];
        positions := positions + [i];
        i := i + 8;
        from := i;
      } else {
        NoFlagFound(bits, positions, pieces, from, i);
        i := i + 1;
      }
    }
    ScanEnds(bits, positions, pieces, from, i);
  }
}
