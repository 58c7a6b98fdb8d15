/** What the remainder limit of the extractor costs: exactly when a transmission is safe in every division
    into chunks, and what is lost otherwise. */
module HdlcLimit {
  import opened Common
  import opened Bits
  import opened Crc
  import opened Hdlc
  import opened HdlcStream
  import opened HdlcFrames

  // ---- one frame given up ---------------------------------------------------------------------------

  /** All of a flag but its last bit. */
  function Start(): seq<bool> { Flag()[..7] }

  function End(): seq<bool> { Flag()[7..] }

  /** Behind a frame of `body` bits, seven bits of its closing flag are enough to make the call give up. */
  lemma GivenUp(body: seq<bool>)
    requires RunsOk(body, 0) && |body| + 15 > MAX_REMAINDER_BITS
    ensures Extract(Flag() + (body + Start())) == Extracted([], Start())
  {
    var part := body + Start();
    assert part <= body + Flag() + [];
    PrefixBeforeFlag(body, [], part);
    NoFlagSplit(part);
    FlagFirst(part);
    assert Tail(Flag() + part) == Start();
  }

  lemma NoFlagSplit(bits: seq<bool>)
    requires Seek(bits) == None
    ensures Split(bits) == Cut([], bits)
  {}

  lemma FeedThree(extract: Extractor, a: seq<bool>, b: seq<bool>, c: seq<bool>)
    ensures var one := extract(a);
            var two := extract(one.rest + b);
            var three := extract(two.rest + c);
            Feed(extract, [], [a, b, c]) == Extracted(one.payloads + (two.payloads + three.payloads), three.rest)
  {
    var one := extract(a);
    var two := extract(one.rest + b);
    var three := extract(two.rest + c);
    assert [] + a == a;
    assert [a, b, c][1..] == [b, c] && [b, c][1..] == [c] && [c][1..] == [];
    FeedLast(extract, two.rest, c);
    assert Feed(extract, one.rest, [b, c]) == Extracted(two.payloads + three.payloads, three.rest);
  }

  lemma FeedLast(extract: Extractor, rest: seq<bool>, c: seq<bool>)
    ensures Feed(extract, rest, [c]) == extract(rest + c)
  {
    var now := extract(rest + c);
    assert [c][1..] == [];
    assert Feed(extract, now.rest, []) == Extracted([], now.rest);
    assert now.payloads + [] == now.payloads;
  }

  /** The chunks that cost the frame its place: cut before it, and before the last bit of its closing flag. */
  function Unlucky(before: seq<Slot>, payload: Bytes, after: seq<Slot>): seq<seq<bool>> {
    [OnAir(before), Body(payload) + Start(), End() + Framed(Pieces(after))]
  }

  /** A frame too long for the limit is lost in those chunks, and it alone. */
  lemma OneLost(before: seq<Slot>, payload: Bytes, after: seq<Slot>)
    requires |Body(payload)| + 15 > MAX_REMAINDER_BITS
    ensures Feed(Extract, [], Unlucky(before, payload, after)) == Extracted(Sent(before) + Sent(after), Flag())
  {
    AllFound(before);
    PieceRunsOk(Some(payload));
    GivenUp(Body(payload));
    FlagJoined(Framed(Pieces(after)));
    AllFound(after);
    FeedLoses(OnAir(before), Body(payload) + Start(), End() + Framed(Pieces(after)), OnAir(after),
              Sent(before), Sent(after));
  }

  lemma FlagJoined(after: seq<bool>)
    ensures Start() + (End() + after) == Flag() + after
  {
    assert Start() + End() == Flag();
  }

  /** Three calls, the middle one giving up what was begun. */
  lemma FeedLoses(a: seq<bool>, b: seq<bool>, c: seq<bool>, last: seq<bool>, xs: seq<Bytes>, ys: seq<Bytes>)
    requires Extract(a) == Extracted(xs, Flag())
    requires Extract(Flag() + b) == Extracted([], Start())
    requires Start() + c == last && Extract(last) == Extracted(ys, Flag())
    ensures Feed(Extract, [], [a, b, c]) == Extracted(xs + ys, Flag())
  {
    FeedThree(Extract, a, b, c);
    assert [] + ys == ys;
  }

  // ---- the exact limit ------------------------------------------------------------------------------

  lemma {:induction false} PiecesConcat(xs: seq<Slot>, ys: seq<Slot>)
    ensures Pieces(xs + ys) == Pieces(xs) + Pieces(ys)
    decreases |xs|
  {
    if xs == [] {
      assert xs + ys == ys;
    } else {
      assert (xs + ys)[1..] == xs[1..] + ys;
      PiecesConcat(xs[1..], ys);
    }
  }

  lemma {:induction false} SentConcat(xs: seq<Slot>, ys: seq<Slot>)
    ensures Sent(xs + ys) == Sent(xs) + Sent(ys)
    decreases |xs|
  {
    if xs == [] {
      assert xs + ys == ys;
    } else {
      assert (xs + ys)[1..] == xs[1..] + ys;
      SentConcat(xs[1..], ys);
    }
  }

  lemma OnePiece(payload: Bytes)
    ensures Framed(Pieces([Some(payload)])) == Body(payload) + Flag()
    ensures payload != [] ==> Sent([Some(payload)]) == [payload]
  {
    var slots: seq<Slot> := [Some(payload)];
    assert slots[1..] == [];
    assert Pieces(slots)[1..] == [];
    assert Framed(Pieces(slots)) == Body(payload) + Flag() + [];
    assert Sent(slots[1..]) == [];
  }

  /** They are the transmission, divided. */
  lemma UnluckyWhole(before: seq<Slot>, payload: Bytes, after: seq<Slot>)
    ensures Flat(Unlucky(before, payload, after)) == OnAir(before + [Some(payload)] + after)
  {
    var one: seq<Slot> := [Some(payload)];
    PiecesConcat(before + one, after);
    PiecesConcat(before, one);
    FramedConcat(Pieces(before + one), Pieces(after));
    FramedConcat(Pieces(before), Pieces(one));
    OnePiece(payload);
    FlatThree(OnAir(before), Body(payload) + Start(), End() + Framed(Pieces(after)));
    Regroup(Framed(Pieces(before)), Body(payload), Framed(Pieces(after)));
  }

  lemma FlatThree<T>(a: seq<T>, b: seq<T>, c: seq<T>)
    ensures Flat([a, b, c]) == a + (b + c)
  {
    assert [a, b, c][1..] == [b, c] && [b, c][1..] == [c];
    FlatOne(c);
  }

  lemma Regroup(before: seq<bool>, body: seq<bool>, after: seq<bool>)
    ensures (Flag() + before) + ((body + Start()) + (End() + after)) == Flag() + (before + (body + Flag()) + after)
  {
    assert Start() + End() == Flag();
  }

  /** Received in any chunks, the transmission gives all its payloads. */
  ghost predicate AlwaysFound(slots: seq<Slot>) {
    forall chunks :: Flat(chunks) == OnAir(slots) ==> Feed(Extract, [], chunks).payloads == Sent(slots)
  }

  lemma TooLong(slots: seq<Slot>, i: nat)
    requires i < |slots| && |Piece(slots[i])| + 15 > MAX_REMAINDER_BITS
    ensures !AlwaysFound(slots)
  {
    var before, payload, after := slots[..i], slots[i].value, slots[i + 1..];
    assert slots == before + [Some(payload)] + after;
    NotEmpty(payload);
    OneLost(before, payload, after);
    UnluckyWhole(before, payload, after);
    SentConcat(before + [Some(payload)], after);
    SentConcat(before, [Some(payload)]);
    OnePiece(payload);
    assert |Sent(slots)| == |Sent(before)| + 1 + |Sent(after)|;
    assert Feed(Extract, [], Unlucky(before, payload, after)).payloads != Sent(slots);
  }

  /** The frame of the empty payload is short. */
  lemma NotEmpty(payload: Bytes)
    requires |Body(payload)| + 15 > MAX_REMAINDER_BITS
    ensures payload != []
  {
    StuffedLength(BytesToBits(AppendFcs(payload)), 0);
  }

  /** The limit is met in practice: no payload of 1021 octets or more is safe by itself. */
  lemma LongPayloadUnsafe(payload: Bytes)
    requires |payload| >= 1021
    ensures !AlwaysFound([Some(payload)])
  {
    TooLong([Some(payload)], 0);
  }

  /** Every division into chunks is harmless if and only if every frame, stuffed, has at most 8177 bits. */
  lemma LimitIsExact(slots: seq<Slot>)
    ensures AlwaysFound(slots) <==> forall i :: 0 <= i < |slots| ==> |Piece(slots[i])| <= 8177
  {
    PiecesQuiet(slots);
    if forall i :: 0 <= i < |slots| ==> |Piece(slots[i])| <= 8177 {
      forall chunks | Flat(chunks) == OnAir(slots) ensures Feed(Extract, [], chunks).payloads == Sent(slots) {
        AnyChunks(slots, chunks);
      }
    } else {
      var i :| 0 <= i < |slots| && |Piece(slots[i])| > 8177;
      TooLong(slots, i);
    }
  }
}
