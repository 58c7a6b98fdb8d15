/** What either end of a YAPP transfer makes of whatever it gets: any octets at the receiver, any replies at
    the sender. The octets of the protocol are written out as numbers. */
module YappSound {
  import opened Common
  import opened Bits
  import opened Numbers
  import opened Yapp

  // ---- the octets of a frame -----------------------------------------------------------------------------

  /** The checksum is a sum without carries, whatever way the octets are divided. */
  lemma {:induction false} ChecksumJoins(a: Bytes, b: Bytes)
    ensures Checksum(a + b) == Checksum(a) ^ Checksum(b)
    decreases |a|
  {
    if a == [] {
      assert a + b == b;
      ZeroXor(Checksum(b));
    } else {
      assert (a + b)[1..] == a[1..] + b;
      ChecksumJoins(a[1..], b);
      XorAssociates(a[0], Checksum(a[1..]), Checksum(b));
    }
  }

  lemma ChecksumOne(x: byte)
    ensures Checksum([]) == 0 && Checksum([x]) == x
  {
    assert [x][1..] == [];
    ZeroXor(x);
  }

  /** 0x01, the length with its low octet first, the data, and the checksum of length and data. */
  lemma FrameOctets(data: Bytes)
    requires |data| < 0x10000
    ensures var e := EncodeFrame(data);
            && |e| == |data| + 4 && e[0] == 0x01
            && Value(e[1]) + 256 * Value(e[2]) == |data|
            && e[3..|e| - 1] == data && e[|e| - 1] == Checksum(e[1..|e| - 1])
  {
    HeaderLength(|data|);
    FrameParts(Header(|data|), data, Checksum(Header(|data|) + data));
  }

  lemma EndOctets()
    ensures EncodeEof() == [0x01, 0x00, 0x00, 0x00]
  {}

  lemma FrameParts(header: Bytes, data: Bytes, check: byte)
    requires |header| == 2
    ensures var e := [SOH] + header + data + [check];
            && |e| == |data| + 4 && e[0] == 0x01 && e[1] == header[0] && e[2] == header[1]
            && e[3..|e| - 1] == data && e[|e| - 1] == check && e[1..|e| - 1] == header + data
  {}

  /** Up to 255 octets, the first of them is the length and the second zero. */
  lemma ShortHeader(data: Bytes)
    requires |data| <= 255
    ensures Value(EncodeFrame(data)[1]) == |data| && Value(EncodeFrame(data)[2]) == 0
  {
    FrameOctets(data);
    NoHighPart(Value(EncodeFrame(data)[1]), Value(EncodeFrame(data)[2]), |data|);
  }

  lemma NoHighPart(a: nat, b: nat, n: nat)
    requires a + 256 * b == n <= 255
    ensures a == n && b == 0
  {}

  lemma OctetBelow(x: byte)
    ensures Value(x) < 256
  {
    ValueAsNat(x);
  }

  // ---- one turn of the receiver --------------------------------------------------------------------------

  /** The octets begin with a frame that carries `b`; `rest` is behind it. */
  ghost predicate BlockAt(wire: Bytes, b: Bytes, rest: Bytes) {
    0 < |b| < 0x10000 && wire == EncodeFrame(b) + rest
  }

  predicate EofAt(wire: Bytes) { |wire| >= 3 && wire[0] == 0x01 && wire[1] == 0x00 && wire[2] == 0x00 }

  /** A frame is complete, but its checksum does not fit. */
  predicate BadAt(wire: Bytes) {
    && |wire| > 3 && wire[0] == 0x01 && Value(wire[1]) + 256 * Value(wire[2]) > 0
    && var n := Value(wire[1]) + 256 * Value(wire[2]);
       |wire| > n + 3 && Checksum(wire[1..n + 3]) != wire[n + 3]
  }

  lemma OctetOfValue(x: byte)
    ensures Octet(Value(x)) == x
  {
    ValueAsNat(x);
    WordOctet(x, 8);
    PackOctet(x);
  }

  lemma ZeroValue(x: byte)
    ensures Value(x) == 0 <==> x == 0
  {
    ValueAsNat(x);
  }

  lemma LengthZero(lo: byte, hi: byte)
    ensures Length(lo, hi) == 0 <==> lo == 0x00 && hi == 0x00
  {
    ZeroValue(lo);
    ZeroValue(hi);
  }

  lemma HeaderUnique(lo: byte, hi: byte, n: nat)
    requires n == Length(lo, hi)
    ensures [lo, hi] == Header(n) && n < 0x10000
  {
    OctetBelow(lo);
    OctetBelow(hi);
    HeaderOf(Value(lo), Value(hi), n);
    OctetOfValue(lo);
    OctetOfValue(hi);
  }

  lemma HeaderOf(a: nat, b: nat, n: nat)
    requires a < 256 && b < 256 && n == a + 256 * b
    ensures Header(n) == [Octet(a), Octet(b)] && n < 0x10000
  {
    TwoDigits(a, b);
  }

  lemma TwoDigits(a: nat, b: nat)
    requires a < 256 && b < 256
    ensures (a + 256 * b) % 256 == a && (a + 256 * b) / 256 % 256 == b && a + 256 * b < 0x10000
  {}

  /** If the receiver takes a block, the octets begin with its frame. */
  lemma TakesBlock(buf: Bytes, wire: Bytes)
    requires ReadFrame(buf, wire).Turn? && ReadFrame(buf, wire).next.Reading?
    ensures var t := ReadFrame(buf, wire);
            && |t.next.buf| >= |buf| && t.next.buf == buf + t.next.buf[|buf|..]
            && BlockAt(wire, t.next.buf[|buf|..], t.rest) && t.reply == [0x01]
  {
    var t := ReadFrame(buf, wire);
    var n := Length(wire[1], wire[2]);
    var b := wire[3..][..n];
    HeaderUnique(wire[1], wire[2], n);
    assert t.next.buf == buf + b && t.next.buf[|buf|..] == b;
    Pieces(wire, n);
    assert wire[1..3] == [wire[1], wire[2]] == Header(|b|);
  }

  lemma Pieces(wire: Bytes, n: nat)
    requires |wire| >= n + 4
    ensures wire == [wire[0]] + wire[1..3] + wire[3..][..n] + [wire[3..][n]] + wire[3..][n + 1..]
  {}

  /** Every turn on any octets, with what is replied to it. */
  lemma TurnExactly(buf: Bytes, wire: Bytes)
    ensures var t := ReadFrame(buf, wire);
            && (wire != [] && wire[0] != 0x01 <==> t.Turn? && t.next.Failed? && t.reply == [])
            && (BadAt(wire) <==> t.Turn? && t.next.Failed? && t.reply == [0x18])
            && (t.Turn? && t.next.Failed? ==> t.reply == [] || t.reply == [0x18])
  {
    if |wire| >= 3 { DataExactly(buf, wire, Length(wire[1], wire[2])); }
  }

  lemma EofExactly(buf: Bytes, wire: Bytes)
    ensures var t := ReadFrame(buf, wire);
            && (EofAt(wire) <==> t.Turn? && t.next.Finished?)
            && (EofAt(wire) ==> t.next == Finished(buf) && t.reply == [0x01])
  {
    if |wire| >= 3 { LengthZero(wire[1], wire[2]); }
  }

  lemma DataExactly(buf: Bytes, wire: Bytes, n: nat)
    requires |wire| >= 3
    ensures var t := ReadData(buf, wire[1..3], n, wire[3..]);
            && (t.Turn? <==> |wire| > n + 3)
            && (t.Turn? ==> !t.next.Finished?)
            && (|wire| > n + 3 && Checksum(wire[1..n + 3]) != wire[n + 3] <==> t.Turn? && t.next.Failed?)
            && (t.Turn? && t.next.Failed? ==> t.reply == [0x18])
  {
    if |wire| > n + 3 { assert wire[1..3] + wire[3..][..n] == wire[1..n + 3]; }
  }

  // ---- a whole reception -----------------------------------------------------------------------------------

  function Encoded(blocks: seq<Bytes>): seq<Bytes> {
    if blocks == [] then [] else [EncodeFrame(blocks[0])] + Encoded(blocks[1..])
  }

  predicate AllFit(blocks: seq<Bytes>) { forall i :: 0 <= i < |blocks| ==> 0 < |blocks[i]| < 0x10000 }

  /** What is true of `ReadFrame`, for a reader in general. */
  ghost predicate Understands(read: FrameReader) {
    && (forall buf, b, rest :: 0 < |b| < 0x10000 ==>
          read(buf, EncodeFrame(b) + rest) == Turn(Reading(buf + b), [0x01], rest))
    && (forall buf, wire {:trigger read(buf, wire)} :: read(buf, wire).Turn? && read(buf, wire).next.Reading? ==>
          var t := read(buf, wire);
          |t.next.buf| >= |buf| && t.next.buf == buf + t.next.buf[|buf|..] &&
          BlockAt(wire, t.next.buf[|buf|..], t.rest) && t.reply == [0x01])
    && (forall buf, wire {:trigger read(buf, wire)} ::
          EofAt(wire) <==> read(buf, wire).Turn? && read(buf, wire).next.Finished?)
    && (forall buf, wire {:trigger read(buf, wire)} :: EofAt(wire) ==>
          read(buf, wire).next == Finished(buf) && read(buf, wire).reply == [0x01])
  }

  lemma ReaderUnderstands()
    ensures Understands(Reader())
  {
    forall buf, b, rest | 0 < |b| < 0x10000
      ensures ReadFrame(buf, EncodeFrame(b) + rest) == Turn(Reading(buf + b), [0x01], rest)
    {
      GoodFrame(buf, b, rest);
    }
    forall buf, wire | ReadFrame(buf, wire).Turn? && ReadFrame(buf, wire).next.Reading?
      ensures var t := ReadFrame(buf, wire);
              |t.next.buf| >= |buf| && t.next.buf == buf + t.next.buf[|buf|..] &&
              BlockAt(wire, t.next.buf[|buf|..], t.rest) && t.reply == [0x01]
    {
      TakesBlock(buf, wire);
    }
    forall buf, wire
      ensures EofAt(wire) <==> ReadFrame(buf, wire).Turn? && ReadFrame(buf, wire).next.Finished?
      ensures EofAt(wire) ==> ReadFrame(buf, wire).next == Finished(buf) && ReadFrame(buf, wire).reply == [0x01]
    {
      EofExactly(buf, wire);
    }
  }

  /** Good frames are taken one by one, each acknowledged, whatever follows. */
  lemma {:induction false} BlocksTaken(read: FrameReader, buf: Bytes, blocks: seq<Bytes>, rest: Bytes)
    requires Understands(read) && AllFit(blocks)
    ensures Receive(read, buf, Flat(Encoded(blocks)) + rest) ==
            Behind(Acks(|blocks|), Receive(read, buf + Flat(blocks), rest))
    decreases |blocks|
  {
    if blocks == [] {
      assert Flat(Encoded(blocks)) + rest == rest && buf + Flat(blocks) == buf;
      assert Acks(0) == [];
      BehindNone(Receive(read, buf, rest));
    } else {
      var later := Flat(Encoded(blocks[1..])) + rest;
      assert Encoded(blocks)[1..] == Encoded(blocks[1..]);
      Chain(EncodeFrame(blocks[0]), Flat(Encoded(blocks[1..])), rest);
      BlocksTaken(read, buf + blocks[0], blocks[1..], rest);
      Chain(buf, blocks[0], Flat(blocks[1..]));
      OneTaken(read, buf, blocks[0], later, |blocks| - 1, Receive(read, buf + Flat(blocks), rest));
    }
  }

  lemma OneTaken(read: FrameReader, buf: Bytes, b: Bytes, later: Bytes, n: nat, end: Reception)
    requires Understands(read) && 0 < |b| < 0x10000
    requires Receive(read, buf + b, later) == Behind(Acks(n), end)
    ensures Receive(read, buf, EncodeFrame(b) + later) == Behind(Acks(n + 1), end)
  {
    AcksSum(n);
    Chain([0x01], Acks(n), end.replies);
  }

  /** The octets are the frames of `blocks`, an end frame with or without its last octet, and more. */
  ghost predicate Transmits(wire: Bytes, blocks: seq<Bytes>, tail: Bytes) {
    AllFit(blocks) && wire == Flat(Encoded(blocks)) + tail && EofAt(tail)
  }

  lemma {:induction false} Sound(read: FrameReader, buf: Bytes, wire: Bytes) returns (blocks: seq<Bytes>, tail: Bytes)
    requires Understands(read) && Receive(read, buf, wire).file.Some?
    ensures Transmits(wire, blocks, tail) && Receive(read, buf, wire).file == Some(buf + Flat(blocks))
    decreases |wire|
  {
    var t := read(buf, wire);
    if EofAt(wire) {
      blocks, tail := [], wire;
      assert Flat(Encoded(blocks)) + tail == tail && buf + Flat(blocks) == buf;
    } else {
      var b := t.next.buf[|buf|..];
      var more, end := Sound(read, t.next.buf, t.rest);
      blocks, tail := [b] + more, end;
      BlockInFront(wire, b, t.rest, more, end);
      assert blocks[1..] == more;
      Chain(buf, b, Flat(more));
    }
  }

  lemma BlockInFront(wire: Bytes, b: Bytes, rest: Bytes, more: seq<Bytes>, tail: Bytes)
    requires BlockAt(wire, b, rest) && Transmits(rest, more, tail)
    ensures Transmits(wire, [b] + more, tail)
  {
    var blocks := [b] + more;
    assert blocks[1..] == more;
    assert Encoded(blocks)[1..] == Encoded(more);
    Chain(EncodeFrame(b), Flat(Encoded(more)), tail);
  }

  /** From any octets there is a file exactly if they are the frames of non-empty blocks and an end frame, and
      then it is the blocks joined. */
  lemma FileExactly(wire: Bytes, data: Bytes)
    ensures Receive(Reader(), [], wire).file == Some(data) <==>
            exists blocks, tail :: Transmits(wire, blocks, tail) && Flat(blocks) == data
  {
    ReaderUnderstands();
    FileOf(Reader(), wire, data);
  }

  lemma FileOf(read: FrameReader, wire: Bytes, data: Bytes)
    requires Understands(read)
    ensures Receive(read, [], wire).file == Some(data) <==>
            exists blocks, tail :: Transmits(wire, blocks, tail) && Flat(blocks) == data
  {
    if Receive(read, [], wire).file == Some(data) {
      var blocks, tail := Sound(read, [], wire);
      assert [] + Flat(blocks) == Flat(blocks);
      assert Transmits(wire, blocks, tail) && Flat(blocks) == data;
    }
    if exists blocks, tail :: Transmits(wire, blocks, tail) && Flat(blocks) == data {
      var blocks, tail :| Transmits(wire, blocks, tail) && Flat(blocks) == data;
      BlocksTaken(read, [], blocks, tail);
      assert [] + Flat(blocks) == Flat(blocks);
    }
  }

  /** Good frames and then nothing, an abort or any other octet than 0x01: no file, and no more replies. */
  lemma CutShort(blocks: seq<Bytes>, rest: Bytes)
    requires AllFit(blocks) && (rest == [] || rest[0] != 0x01)
    ensures var r := Receive(Reader(), [], Flat(Encoded(blocks)) + rest); r.file == None && r.replies == Acks(|blocks|)
  {
    ReaderUnderstands();
    BlocksTaken(Reader(), [], blocks, rest);
    Stops([] + Flat(blocks), rest);
    assert Acks(|blocks|) + [] == Acks(|blocks|);
  }

  lemma Stops(buf: Bytes, rest: Bytes)
    requires rest == [] || rest[0] != 0x01
    ensures Receive(Reader(), buf, rest).file == None && Receive(Reader(), buf, rest).replies == []
  {
    TurnExactly(buf, rest);
    EofExactly(buf, rest);
  }

  /** Good frames and then one whose checksum does not fit: no file, and an abort is sent. */
  lemma ThenBad(blocks: seq<Bytes>, rest: Bytes)
    requires AllFit(blocks) && BadAt(rest)
    ensures var r := Receive(Reader(), [], Flat(Encoded(blocks)) + rest);
            r.file == None && r.replies == Acks(|blocks|) + [0x18]
  {
    ReaderUnderstands();
    BlocksTaken(Reader(), [], blocks, rest);
    TurnExactly([] + Flat(blocks), rest);
  }

  // ---- the sender ----------------------------------------------------------------------------------------

  /** Any replies: the sender stops at the first one that is missing or 0x18, having written that frame, and
      succeeds exactly if there is none among the first |frames|. */
  lemma {:induction false} SendExactly(frames: seq<Bytes>, replies: Bytes, j: nat)
    requires j <= |frames| && j <= |replies| && forall i :: 0 <= i < j ==> replies[i] != 0x18
    requires j == |frames| || j == |replies| || replies[j] == 0x18
    ensures Send(frames, replies) ==
            if j == |frames| then Sending(true, frames, replies[j..])
            else Sending(false, frames[..j + 1], if j < |replies| then replies[j + 1..] else [])
    decreases |frames|
  {
    if frames == [] {
      assert replies[0..] == replies;
    } else if j == 0 {
      assert frames[..1] == [frames[0]];
    } else {
      SendExactly(frames[1..], replies[1..], j - 1);
      assert frames == [frames[0]] + frames[1..];
      if j < |frames| { assert frames[..j + 1] == [frames[0]] + frames[1..][..j]; }
    }
  }

  /** What is true of the replies of `ReadFrame`. */
  ghost predicate RepliesRight(read: FrameReader) {
    forall buf, wire {:trigger read(buf, wire)} :: read(buf, wire).Turn? ==>
      var t := read(buf, wire);
      if t.next.Failed? then t.reply == [] || t.reply == [0x18] else t.reply == [0x01]
  }

  /** In lockstep the sender's verdict is the one it reaches by itself on the replies that passed, whatever
      frames it sent and whatever of them arrived. */
  lemma {:induction false} SentIsSend(read: FrameReader, buf: Bytes, unread: Bytes, delivered: seq<Bytes>, frames: seq<Bytes>)
    requires RepliesRight(read) && |frames| == |delivered|
    ensures var t := Lockstep(read, buf, unread, delivered); Send(frames, t.replies).ok == t.sent
    decreases |delivered|
  {
    if delivered != [] {
      var turn := read(buf, unread + delivered[0]);
      if turn.Turn? && turn.next.Reading? {
        SentIsSend(read, turn.next.buf, turn.rest, delivered[1..], frames[1..]);
        var later := Lockstep(read, turn.next.buf, turn.rest, delivered[1..]);
        assert ([0x01] + later.replies)[1..] == later.replies;
      }
    }
  }

  lemma ReaderReplies()
    ensures RepliesRight(Reader())
  {
    forall buf, wire | ReadFrame(buf, wire).Turn?
      ensures var t := ReadFrame(buf, wire);
              if t.next.Failed? then t.reply == [] || t.reply == [0x18] else t.reply == [0x01]
    {
      TurnExactly(buf, wire);
      EofExactly(buf, wire);
      if ReadFrame(buf, wire).next.Reading? { TakesBlock(buf, wire); }
    }
  }
}
