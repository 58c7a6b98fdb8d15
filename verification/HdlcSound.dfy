/** What the extractor may deliver from any bits at all: frames cut out between flags that obey the stuffing
    rule and pass the check sequence, each once, in the order they came, and nothing else. */
module HdlcSound {
  import opened Common
  import opened Bits
  import opened Crc
  import opened Hdlc
  import opened HdlcStream
  import opened HdlcFrames

  // ---- one stretch -----------------------------------------------------------------------------------

  /** Stuffed bits of octets with a good check sequence, `p` without it. */
  ghost predicate Good(piece: seq<bool>, p: Bytes) {
    exists x: seq<bool> :: piece == Stuff(x, 0) && VerifyFcs(BitsToBytes(x)) && p == Unchecked(BitsToBytes(x))
  }

  /** A frame without its last two octets. */
  function Unchecked(f: Bytes): Bytes { if |f| < 2 then [] else f[..|f| - 2] }

  /** Bits unstuff to `x` exactly if they are `x` stuffed. */
  lemma UnstuffExactly(y: seq<bool>, x: seq<bool>)
    ensures Unstuff(y, 0) == Some(x) <==> y == Stuff(x, 0)
  {
    UnstuffOnlyStuffed(y, 0);
    UnstuffStuff(x);
  }

  /** A stretch is delivered exactly if it is good. */
  lemma GoodExactly(piece: seq<bool>, p: Bytes)
    ensures Payload(piece) == Some(p) <==> Good(piece, p)
  {
    if Payload(piece) == Some(p) {
      var x := Unstuff(piece, 0).value;
      UnstuffExactly(piece, x);
    }
    if Good(piece, p) {
      var x: seq<bool> :| piece == Stuff(x, 0) && VerifyFcs(BitsToBytes(x)) && p == Unchecked(BitsToBytes(x));
      UnstuffExactly(piece, x);
    }
  }

  // ---- one call ---------------------------------------------------------------------------------------

  /** `p` is cut out of `bits` behind the bits `z` and a flag, and `more` begins with the flag that ends it. */
  ghost predicate Cuts(bits: seq<bool>, z: seq<bool>, piece: seq<bool>, more: seq<bool>, p: Bytes) {
    bits == z + (Flag() + (piece + more)) && Flag() <= more && Good(piece, p)
  }

  /** `ps` are cut out of `bits` in this order, each from between two flags, of which the second may be the
      first of the next; `left` is the end of `bits` behind them. */
  ghost predicate Carved(bits: seq<bool>, ps: seq<Bytes>, left: seq<bool>)
    decreases |ps|
  {
    if ps == [] then exists z: seq<bool> :: bits == z + left
    else exists z, piece, more :: Cuts(bits, z, piece, more, ps[0]) && Carved(more, ps[1..], left)
  }

  lemma FirstCarved(bits: seq<bool>, ps: seq<Bytes>, left: seq<bool>)
    returns (z: seq<bool>, piece: seq<bool>, more: seq<bool>)
    requires ps != [] && Carved(bits, ps, left)
    ensures Cuts(bits, z, piece, more, ps[0]) && Carved(more, ps[1..], left)
  {
    z, piece, more :| Cuts(bits, z, piece, more, ps[0]) && Carved(more, ps[1..], left);
  }

  lemma CarvedOne(bits: seq<bool>, z: seq<bool>, piece: seq<bool>, more: seq<bool>, p: Bytes, ps: seq<Bytes>,
                  left: seq<bool>)
    requires Cuts(bits, z, piece, more, p) && Carved(more, ps, left)
    ensures Carved(bits, [p] + ps, left)
  {
    var all := [p] + ps;
    assert Cuts(bits, z, piece, more, all[0]) && all[1..] == ps;
    assert Carved(more, all[1..], left);
  }

  lemma CutsBehind(y: seq<bool>, bits: seq<bool>, z: seq<bool>, piece: seq<bool>, more: seq<bool>, p: Bytes)
    requires Cuts(bits, z, piece, more, p)
    ensures Cuts(y + bits, y + z, piece, more, p)
  {
    Chain(y, z, Flag() + (piece + more));
  }

  lemma CutsBefore(bits: seq<bool>, z: seq<bool>, piece: seq<bool>, more: seq<bool>, p: Bytes, y: seq<bool>)
    requires Cuts(bits, z, piece, more, p)
    ensures Cuts(bits + y, z, piece, more + y, p)
  {
    Chain(piece, more, y);
    Chain(Flag(), piece + more, y);
    Chain(z, Flag() + (piece + more), y);
  }

  /** Bits in front change nothing. */
  lemma CarvedBehind(y: seq<bool>, bits: seq<bool>, ps: seq<Bytes>, left: seq<bool>)
    requires Carved(bits, ps, left)
    ensures Carved(y + bits, ps, left)
  {
    if ps == [] {
      var z: seq<bool> :| bits == z + left;
      Chain(y, z, left);
    } else {
      var z, piece, more := FirstCarved(bits, ps, left);
      CutsBehind(y, bits, z, piece, more, ps[0]);
    }
  }

  /** Nor do bits behind. */
  lemma {:induction false} CarvedBefore(bits: seq<bool>, ps: seq<Bytes>, left: seq<bool>, y: seq<bool>)
    requires Carved(bits, ps, left)
    ensures Carved(bits + y, ps, left + y)
    decreases |ps|
  {
    if ps == [] {
      var z: seq<bool> :| bits == z + left;
      Chain(z, left, y);
    } else {
      var z, piece, more := FirstCarved(bits, ps, left);
      CarvedBefore(more, ps[1..], left, y);
      CutsBefore(bits, z, piece, more, ps[0], y);
    }
  }

  lemma FirstOf<T>(xs: seq<T>, ys: seq<T>)
    requires xs != []
    ensures xs + ys == [xs[0]] + (xs[1..] + ys)
  {}

  lemma {:induction false} CarvedTwice(bits: seq<bool>, xs: seq<Bytes>, mid: seq<bool>, ys: seq<Bytes>, left: seq<bool>)
    requires Carved(bits, xs, mid) && Carved(mid, ys, left)
    ensures Carved(bits, xs + ys, left)
    decreases |xs|
  {
    if xs == [] {
      var z: seq<bool> :| bits == z + mid;
      CarvedBehind(z, mid, ys, left);
      assert xs + ys == ys;
    } else {
      var z, piece, more := FirstCarved(bits, xs, mid);
      CarvedTwice(more, xs[1..], mid, ys, left);
      CarvedOne(bits, z, piece, more, xs[0], xs[1..] + ys, left);
      FirstOf(xs, ys);
    }
  }

  /** Behind a flag: the good ones among the stretches come out; the last flag and what follows are left. */
  lemma {:induction false} GatherCarved(bits: seq<bool>)
    ensures Carved(Flag() + bits, Gather(Payload, Split(bits).pieces), Flag() + Split(bits).rest)
    decreases |bits|
  {
    var at := Seek(bits);
    if at.None? {
      assert Split(bits).pieces == [];
      assert Flag() + bits == [] + (Flag() + Split(bits).rest);
    } else {
      var piece, later := bits[..at.value], bits[at.value + 8..];
      CutAtFlag(bits, at.value);
      GatherCarved(later);
      SplitHere(bits, at.value, piece, later);
      assert Split(bits).pieces[1..] == Split(later).pieces;
      OneStretch(bits, piece, later, Gather(Payload, Split(later).pieces), Flag() + Split(later).rest);
    }
  }

  lemma {:induction false} SeekFinds(bits: seq<bool>, at: nat)
    requires Seek(bits) == Some(at)
    ensures at + 8 <= |bits| && IsFlag(bits[at..])
    decreases |bits|
  {
    if at == 0 {
      assert bits[0..] == bits;
    } else {
      SeekFinds(bits[1..], at - 1);
      assert bits[1..][at - 1..] == bits[at..];
    }
  }

  lemma CutAtFlag(bits: seq<bool>, at: nat)
    requires Seek(bits) == Some(at)
    ensures bits == bits[..at] + (Flag() + bits[at + 8..])
  {
    SeekFinds(bits, at);
    FlagSlice(bits, at);
    assert bits == bits[..at] + bits[at..];
  }

  lemma OneStretch(bits: seq<bool>, piece: seq<bool>, later: seq<bool>, ps: seq<Bytes>, left: seq<bool>)
    requires bits == piece + (Flag() + later) && Carved(Flag() + later, ps, left)
    ensures Carved(Flag() + bits, (if Payload(piece).Some? then [Payload(piece).value] else []) + ps, left)
  {
    var more := Flag() + later;
    if Payload(piece).Some? {
      GoodExactly(piece, Payload(piece).value);
      assert Flag() + bits == [] + (Flag() + (piece + more));
      CarvedOne(Flag() + bits, [], piece, more, Payload(piece).value, ps, left);
    } else {
      CarvedBehind(Flag() + piece, more, ps, left);
      Chain(Flag(), piece, more);
      assert [] + ps == ps;
    }
  }

  /** One call on any bits. */
  lemma ExtractCarved(bits: seq<bool>)
    ensures Carved(bits, Extract(bits).payloads, Extract(bits).rest)
  {
    var cut := Split(bits);
    if |cut.pieces| == 0 || GivesUp(cut) {
      var rest := Extract(bits).rest;
      assert bits == bits[..|bits| - |rest|] + rest;
    } else {
      var at := Seek(bits).value;
      CutAtFlag(bits, at);
      SplitHere(bits, at, bits[..at], bits[at + 8..]);
      assert cut.pieces[1..] == Split(bits[at + 8..]).pieces;
      GatherCarved(bits[at + 8..]);
      CarvedBehind(bits[..at], Flag() + bits[at + 8..], Extract(bits).payloads, Extract(bits).rest);
    }
  }

  // ---- any chunks ---------------------------------------------------------------------------------------

  /** Whatever bits come in whatever chunks: only good frames are delivered, each once and in order. */
  lemma {:induction false} FeedCarved(rest: seq<bool>, chunks: seq<seq<bool>>)
    ensures Carved(rest + Flat(chunks), Feed(Extract, rest, chunks).payloads, Feed(Extract, rest, chunks).rest)
    decreases |chunks|
  {
    if chunks == [] {
      assert rest + [] == [] + rest;
    } else {
      var now, more := Extract(rest + chunks[0]), Flat(chunks[1..]);
      ExtractCarved(rest + chunks[0]);
      CarvedBefore(rest + chunks[0], now.payloads, now.rest, more);
      FeedCarved(now.rest, chunks[1..]);
      Chain(rest, chunks[0], more);
      var later := Feed(Extract, now.rest, chunks[1..]);
      CarvedTwice(rest + chunks[0] + more, now.payloads, now.rest + more, later.payloads, later.rest);
    }
  }

  /** `p` lies between two flags of `bits`, stuffed and with its check sequence. */
  ghost predicate FlagsAround(bits: seq<bool>, p: Bytes) {
    exists z: seq<bool>, piece: seq<bool>, y: seq<bool> ::
      bits == z + (Flag() + (piece + (Flag() + y))) && Good(piece, p)
  }

  lemma {:induction false} CarvedAround(bits: seq<bool>, ps: seq<Bytes>, left: seq<bool>, i: nat)
    requires Carved(bits, ps, left) && i < |ps|
    ensures FlagsAround(bits, ps[i])
    decreases i
  {
    var z, piece, more := FirstCarved(bits, ps, left);
    if i == 0 {
      assert more == Flag() + more[8..];
    } else {
      CarvedAround(more, ps[1..], left, i - 1);
      AroundBehind(z, piece, more, ps[i]);
    }
  }

  lemma AroundBehind(z: seq<bool>, piece: seq<bool>, more: seq<bool>, p: Bytes)
    requires FlagsAround(more, p)
    ensures FlagsAround(z + (Flag() + (piece + more)), p)
  {
    var w: seq<bool>, inner: seq<bool>, y: seq<bool> :|
      more == w + (Flag() + (inner + (Flag() + y))) && Good(inner, p);
    var end := Flag() + (inner + (Flag() + y));
    assert z + (Flag() + (piece + (w + end))) == (z + Flag() + piece + w) + end;
  }

  /** Nothing that breaks the stuffing rule or fails the check sequence is ever delivered. */
  lemma NothingElse(chunks: seq<seq<bool>>, p: Bytes)
    requires p in Feed(Extract, [], chunks).payloads
    ensures FlagsAround(Flat(chunks), p)
  {
    var found := Feed(Extract, [], chunks);
    FeedCarved([], chunks);
    assert [] + Flat(chunks) == Flat(chunks);
    var i :| 0 <= i < |found.payloads| && found.payloads[i] == p;
    CarvedAround(Flat(chunks), found.payloads, found.rest, i);
  }

  // ---- what is found -------------------------------------------------------------------------------------

  /** Whatever bits come before and after, a good frame is found if the scan has just passed its opening flag. */
  lemma FoundInSync(a: seq<bool>, x: seq<bool>, b: seq<bool>)
    requires Split(a + Flag()).pieces != [] && Split(a + Flag()).rest == []
    requires x != [] && VerifyFcs(BitsToBytes(x))
    ensures Unchecked(BitsToBytes(x)) in Extract(a + Flag() + (Stuff(x, 0) + Flag() + b)).payloads
  {
    var body, p := Stuff(x, 0), Unchecked(BitsToBytes(x));
    var before, after := Split(a + Flag()).pieces, Split(b).pieces;
    SplitMore(a + Flag(), body + Flag() + b);
    assert [] + (body + Flag() + b) == body + Flag() + b;
    StuffedRunsOk(x, 0);
    SplitPiece(body, b);
    GoodExactly(body, p);
    assert Split(a + Flag() + (body + Flag() + b)).pieces == before + ([body] + after);
    GatherHas(before, body, after, p);
  }

  lemma GatherHas(before: seq<seq<bool>>, piece: seq<bool>, after: seq<seq<bool>>, p: Bytes)
    requires before != [] && Payload(piece) == Some(p)
    ensures p in Gather(Payload, (before + ([piece] + after))[1..])
  {
    var all := before + ([piece] + after);
    assert all[1..] == before[1..] + ([piece] + after);
    GatherConcat(Payload, before[1..], [piece] + after);
    assert ([piece] + after)[1..] == after;
  }

  lemma {:induction false} SeekBehind(front: seq<bool>, bits: seq<bool>)
    requires forall i :: 0 <= i < |front| ==> front[i]
    ensures Seek(front + bits) == if Seek(bits).None? then None else Some(Seek(bits).value + |front|)
    decreases |front|
  {
    if front == [] {
      assert front + bits == bits;
    } else {
      assert (front + bits)[1..] == front[1..] + bits;
      SeekBehind(front[1..], bits);
    }
  }

  lemma {:induction false} OnesRefused(n: nat, ones: nat, rest: seq<bool>)
    requires ones <= 5 && n + ones == 6
    ensures Unstuff(Ones(n) + rest, ones) == None
    decreases n
  {
    var bits := Ones(n) + rest;
    if ones < 5 {
      assert bits[1..] == Ones(n - 1) + rest;
      OnesRefused(n - 1, ones + 1, rest);
    }
  }

  /** All of a flag but its first bit. */
  function Shared(): seq<bool> { Flag()[1..] }

  /** But two flags that share a zero hide the frame behind them: the scan passes over
      the shared zero with the first flag, and what follows breaks the stuffing rule. */
  lemma SharedZeroHides(payload: Bytes)
    ensures Extract(Flag() + (Shared() + (Body(payload) + Flag()))).payloads == []
  {
    PieceRunsOk(Some(payload));
    HiddenStretch(Body(payload), Ones(6));
    FlagFirst(Shared() + (Body(payload) + Flag()));
    OnesRefused(6, 0, [false] + Body(payload));
    NothingGathered(Shared() + Body(payload), Ones(6) + ([false] + Body(payload)));
  }

  lemma NothingGathered(piece: seq<bool>, same: seq<bool>)
    requires piece == same && Unstuff(same, 0) == None
    ensures Gather(Payload, [piece]) == []
  {
    assert [piece][1..] == [];
  }

  lemma HiddenStretch(body: seq<bool>, ones: seq<bool>)
    requires RunsOk(body, 0) && ones == Ones(6)
    ensures Shared() + body == ones + ([false] + body)
    ensures Split(Shared() + (body + Flag())) == Cut([Shared() + body], [])
  {
    var bits := [false] + body + Flag();
    SeekZero(body, bits);
    SeekBehind(ones, bits);
    SharedIs(ones);
    Regrouped(ones, body);
    EndsWithFlag(Shared() + body, Shared() + (body + Flag()));
  }

  lemma SharedIs(ones: seq<bool>)
    requires ones == Ones(6)
    ensures Shared() == ones + [false] && |ones| == 6
  {}

  lemma Regrouped(ones: seq<bool>, body: seq<bool>)
    requires Shared() == ones + [false]
    ensures Shared() + body == ones + ([false] + body)
    ensures Shared() + (body + Flag()) == ones + ([false] + body + Flag()) == (Shared() + body) + Flag()
  {}

  lemma SeekZero(body: seq<bool>, bits: seq<bool>)
    requires RunsOk(body, 0) && bits == [false] + body + Flag()
    ensures Seek(bits) == Some(1 + |body|)
  {
    assert ([false] + body)[1..] == body;
    SeekBody([false] + body, 0, []);
    assert bits + [] == bits;
  }

  lemma EndsWithFlag(piece: seq<bool>, bits: seq<bool>)
    requires bits == piece + Flag() && Seek(bits) == Some(|piece|)
    ensures Split(bits) == Cut([piece], [])
  {
    SplitHere(bits, |piece|, piece, []);
  }

  // ---- memory --------------------------------------------------------------------------------------------

  lemma {:induction false} FlagReachesOut(q: seq<bool>, b: seq<bool>)
    requires Seek(q) == None && Seek(q + b).Some?
    ensures Seek(q + b).value + 8 > |q|
    decreases |q|
  {
    if |q| >= 8 {
      assert (q + b)[1..] == q[1..] + b;
      FlagReachesOut(q[1..], b);
    }
  }

  lemma {:induction false} RestHasNoFlag(bits: seq<bool>)
    ensures Seek(Split(bits).rest) == None && |Split(bits).rest| <= |bits|
    decreases |bits|
  {
    var at := Seek(bits);
    if at.Some? { RestHasNoFlag(bits[at.value + 8..]); }
  }

  /** What one call keeps: at most one flag, and then all of it is new or within the limit. */
  lemma OneCallKeeps(rest: seq<bool>, chunk: seq<bool>)
    requires |Split(rest).pieces| <= 1
    ensures var kept := Extract(rest + chunk).rest;
            |Split(kept).pieces| <= 1 && (|kept| <= 8192 || |kept| <= |chunk| + 7)
  {
    var bits := rest + chunk;
    var cut := Split(bits);
    RestHasNoFlag(bits);
    if |cut.pieces| <= 1 {
      if |cut.pieces| == 1 && !GivesUp(cut) { FlagFirst(cut.rest); }
    } else {
      SplitMore(rest, chunk);
      RestHasNoFlag(rest);
      BehindLastFlag(Split(rest).rest, chunk);
      FlagFirst(cut.rest);
    }
  }

  /** Behind bits without a flag, what follows a flag is new. */
  lemma BehindLastFlag(q: seq<bool>, chunk: seq<bool>)
    requires Seek(q) == None && Split(q + chunk).pieces != []
    ensures |Split(q + chunk).rest| < |chunk|
  {
    var all := q + chunk;
    var at := Seek(all).value;
    FlagReachesOut(q, chunk);
    RestHasNoFlag(all[at + 8..]);
  }

  /** Whatever comes in, no more than 8192 bits are kept, or the last chunk and seven bits if that is more. */
  lemma {:induction false} MemoryBounded(rest: seq<bool>, chunks: seq<seq<bool>>, n: nat)
    requires |Split(rest).pieces| <= 1 && |rest| <= if n + 7 > 8192 then n + 7 else 8192
    requires forall i :: 0 <= i < |chunks| ==> |chunks[i]| <= n
    ensures |Feed(Extract, rest, chunks).rest| <= if n + 7 > 8192 then n + 7 else 8192
    decreases |chunks|
  {
    if chunks != [] {
      OneCallKeeps(rest, chunks[0]);
      MemoryBounded(Extract(rest + chunks[0]).rest, chunks[1..], n);
    }
  }

  // ---- one frame in octets -------------------------------------------------------------------------------

  predicate Flagged(frame: Bytes) { |frame| >= 4 && frame[0] == 0x7E && frame[|frame| - 1] == 0x7E }

  /** Any octets: with flags around them and a good frame between these there is a payload, and no other. */
  lemma DecodesExactly(frame: Bytes, p: Bytes)
    ensures DecodeFrame(frame) == Ok(p) <==> Flagged(frame) && Good(BytesToBits(frame[1..|frame| - 1]), p)
  {
    if Flagged(frame) { GoodExactly(BytesToBits(frame[1..|frame| - 1]), p); }
  }

  /** Otherwise the error says what is missing, the first that is. */
  lemma DecodeErrors(frame: Bytes)
    requires DecodeFrame(frame).Err?
    ensures DecodeFrame(frame).error ==
            if !Flagged(frame) then "Missing HDLC frame flags"
            else if !Stuffed(BytesToBits(frame[1..|frame| - 1])) then "Invalid HDLC bit-stuff sequence"
            else "Bad AX.25 FCS"
  {
    if Flagged(frame) { StuffedExactly(BytesToBits(frame[1..|frame| - 1])); }
  }

  ghost predicate Stuffed(bits: seq<bool>) { exists x: seq<bool> :: bits == Stuff(x, 0) }

  lemma StuffedExactly(bits: seq<bool>)
    ensures Unstuff(bits, 0).Some? <==> Stuffed(bits)
  {
    if Stuffed(bits) {
      var x: seq<bool> :| bits == Stuff(x, 0);
      UnstuffExactly(bits, x);
    }
    UnstuffOnlyStuffed(bits, 0);
  }
}
