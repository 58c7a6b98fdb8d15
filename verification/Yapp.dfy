/** YAPP file transfer: the file goes out in checksummed blocks, each acknowledged before the next, and a
    block of length zero ends it. */
module Yapp {
  import opened Common
  import opened Numbers

  const SOH: byte := 0x01
  const CAN: byte := 0x18

  // ---- frames -----------------------------------------------------------------------------------------

  /** The exclusive or of all octets. */
  function Checksum(data: Bytes): byte {
    if data == [] then 0 else data[0] ^ Checksum(data[1..])
  }

  function Header(length: nat): Bytes { [Octet(length % 256), Octet(length / 256 % 256)] }

  function EncodeFrame(data: Bytes): Bytes {
    [SOH] + Header(|data|) + data + [Checksum(Header(|data|) + data)]
  }

  function EncodeEof(): Bytes { [SOH, 0, 0, 0] }

  /** The file cut into blocks. */
  function Blocks(data: Bytes, size: nat): seq<Bytes>
    requires size > 0
    decreases |data|
  {
    if data == [] then []
    else if |data| <= size then [data]
    else [data[..size]] + Blocks(data[size..], size)
  }

  function Frames(blocks: seq<Bytes>): seq<Bytes> {
    if blocks == [] then [EncodeEof()] else [EncodeFrame(blocks[0])] + Frames(blocks[1..])
  }

  /** Nothing is lost by cutting. */
  lemma {:induction false} BlocksJoin(data: Bytes, size: nat)
    requires size > 0
    ensures Flat(Blocks(data, size)) == data
    decreases |data|
  {
    if data == [] {
    } else if |data| <= size {
      FlatOne(data);
    } else {
      BlocksJoin(data[size..], size);
      assert Blocks(data, size)[1..] == Blocks(data[size..], size);
      assert data == data[..size] + data[size..];
    }
  }

  lemma {:induction false} BlockSizes(data: Bytes, size: nat)
    requires size > 0
    ensures forall i :: 0 <= i < |Blocks(data, size)| ==> 0 < |Blocks(data, size)[i]| <= size
    decreases |data|
  {
    if |data| > size { BlockSizes(data[size..], size); }
  }

  lemma Multiple(a: int, b: int, size: nat)
    requires a < b
    ensures (a + 1) * size <= b * size
  {
    var c := b - a - 1;
    assert b * size == (a + 1) * size + c * size;
  }

  lemma QuotientIs(n: nat, q: nat, r: nat, size: nat)
    requires 0 <= r < size && n == q * size + r
    ensures n / size == q
  {
    var k := n / size;
    assert n == k * size + n % size;
    if k < q { Multiple(k, q, size); }
    if q < k { Multiple(q, k, size); }
  }

  lemma OneMore(n: nat, size: nat)
    requires size > 0
    ensures (n + size) / size == 1 + n / size
  {
    assert n + size == (1 + n / size) * size + n % size;
    QuotientIs(n + size, 1 + n / size, n % size, size);
  }

  /** n / size, rounded up. */
  function Parts(n: nat, size: nat): nat
    requires size > 0
  {
    (n + size - 1) / size
  }

  /** There is one block for every begun `size` octets. */
  lemma {:induction false} BlockCount(data: Bytes, size: nat)
    requires size > 0
    ensures |Blocks(data, size)| == Parts(|data|, size)
    decreases |data|
  {
    if |data| > size {
      BlockCount(data[size..], size);
      OneMore(|data| - 1, size);
    } else if data != [] {
      QuotientIs(|data| + size - 1, 1, |data| - 1, size);
    } else {
      QuotientIs(size - 1, 0, size - 1, size);
    }
  }

  // ---- the receiver -----------------------------------------------------------------------------------

  datatype Receiver = Reading(buf: Bytes) | Finished(data: Bytes) | Failed

  /** One turn of the receive loop: it waits for octets that have not come, or it goes on, with a reply. */
  datatype Turn = Waits | Turn(next: Receiver, reply: Bytes, rest: Bytes)

  function Length(lo: byte, hi: byte): nat { Value(lo) + 256 * Value(hi) }

  function ReadFrame(buf: Bytes, wire: Bytes): (turn: Turn)
    ensures turn.Turn? ==> |turn.rest| < |wire|
  {
    if wire == [] then Waits
    else if wire[0] != SOH then Turn(Failed, [], wire[1..])
    else if |wire| < 3 then Waits
    else if Length(wire[1], wire[2]) == 0 then
      Turn(Finished(buf), [SOH], wire[if |wire| > 3 then 4 else 3..])
    else ReadData(buf, wire[1..3], Length(wire[1], wire[2]), wire[3..])
  }

  /** Behind the header: data and checksum. */
  function ReadData(buf: Bytes, header: Bytes, length: nat, wire: Bytes): (turn: Turn)
    ensures turn.Turn? ==> |turn.rest| < |wire|
  {
    if |wire| < length + 1 then Waits
    else if Checksum(header + wire[..length]) != wire[length] then Turn(Failed, [CAN], wire[length + 1..])
    else Turn(Reading(buf + wire[..length]), [SOH], wire[length + 1..])
  }

  /** Every turn uses octets up. */
  ghost predicate Consumes(read: (Bytes, Bytes) -> Turn) {
    forall buf, wire :: read(buf, wire).Turn? ==> |read(buf, wire).rest| < |wire|
  }

  type FrameReader = read: (Bytes, Bytes) -> Turn | Consumes(read) witness (buf, wire) => Waits

  function Reader(): FrameReader { ReadFrame }

  /** A whole reception. What never comes is a timeout, and no file. */
  datatype Reception = Reception(file: Option<Bytes>, replies: Bytes, rest: Bytes)

  function Receive(read: FrameReader, buf: Bytes, wire: Bytes): Reception
    decreases |wire|
  {
    match read(buf, wire)
    case Waits => Reception(None, [], wire)
    case Turn(next, reply, rest) =>
      if next.Finished? then Reception(Some(next.data), reply, rest)
      else if next.Failed? then Reception(None, reply, rest)
      else
        var later := Receive(read, next.buf, rest);
        Reception(later.file, reply + later.replies, later.rest)
  }

  // ---- the sender ---------------------------------------------------------------------------------------

  /** Frames written until a reply is missing or an abort. */
  datatype Sending = Sending(ok: bool, written: seq<Bytes>, rest: Bytes)

  function Send(frames: seq<Bytes>, replies: Bytes): Sending {
    if frames == [] then Sending(true, [], replies)
    else if replies == [] then Sending(false, [frames[0]], [])
    else if replies[0] == CAN then Sending(false, [frames[0]], replies[1..])
    else
      var later := Send(frames[1..], replies[1..]);
      Sending(later.ok, [frames[0]] + later.written, later.rest)
  }

  // ---- both in lockstep -----------------------------------------------------------------------------------

  /** What both ends have at the end, and the replies that passed. */
  datatype Transfer = Transfer(sent: bool, file: Option<Bytes>, replies: Bytes, unread: Bytes)

  /** The sender writes a frame and waits; `delivered` is what reaches the receiver of it. The receiver takes
      one turn; the sender reads the reply, and goes on only if there is one and it is not an abort. */
  function Lockstep(read: FrameReader, buf: Bytes, unread: Bytes, delivered: seq<Bytes>): Transfer
    decreases |delivered|
  {
    if delivered == [] then Transfer(true, None, [], unread)
    else
      var turn := read(buf, unread + delivered[0]);
      match turn
      case Waits => Transfer(false, None, [], unread + delivered[0])
      case Turn(Failed, reply, rest) => Transfer(false, None, reply, rest)
      case Turn(Finished(data), reply, rest) => Transfer(|delivered| == 1, Some(data), reply, rest)
      case Turn(Reading(more), reply, rest) =>
        var later := Lockstep(read, more, rest, delivered[1..]);
        Transfer(later.sent, later.file, reply + later.replies, later.unread)
  }

  lemma LengthOfOctets(lo: nat, hi: nat)
    requires lo < 256 && hi < 256
    ensures Length(Octet(lo), Octet(hi)) == lo + 256 * hi
  {
    ValueOfOctet(lo);
    ValueOfOctet(hi);
  }

  lemma HeaderLength(n: nat)
    requires n < 0x10000
    ensures Length(Header(n)[0], Header(n)[1]) == n
  {
    LengthOfOctets(n % 256, n / 256 % 256);
    TwoParts(n);
  }

  lemma TwoParts(n: nat)
    requires n < 0x10000
    ensures n % 256 + 256 * (n / 256 % 256) == n
  {}

  lemma GoodHeader(data: Bytes, rest: Bytes)
    ensures var wire := EncodeFrame(data) + rest;
            |wire| > 3 && wire[0] == SOH && wire[1..3] == Header(|data|) &&
            wire[3..] == data + [Checksum(Header(|data|) + data)] + rest
  {}

  lemma DataRead(buf: Bytes, header: Bytes, data: Bytes, check: byte, rest: Bytes)
    ensures ReadData(buf, header, |data|, data + [check] + rest) ==
            if check == Checksum(header + data) then Turn(Reading(buf + data), [SOH], rest)
            else Turn(Failed, [CAN], rest)
  {
    var wire := data + [check] + rest;
    assert wire[..|data|] == data && wire[|data| + 1..] == rest;
  }

  /** A frame as it is sent is taken, acknowledged and used up. */
  lemma GoodFrame(buf: Bytes, data: Bytes, rest: Bytes)
    requires 0 < |data| < 0x10000
    ensures ReadFrame(buf, EncodeFrame(data) + rest) == Turn(Reading(buf + data), [SOH], rest)
  {
    var wire := EncodeFrame(data) + rest;
    GoodHeader(data, rest);
    HeaderLength(|data|);
    assert wire[1] == wire[1..3][0] && wire[2] == wire[1..3][1];
    DataRead(buf, Header(|data|), data, Checksum(Header(|data|) + data), rest);
  }

  lemma EofFrame(buf: Bytes, rest: Bytes)
    ensures ReadFrame(buf, EncodeEof() + rest) == Turn(Finished(buf), [SOH], rest)
  {
    var wire := EncodeEof() + rest;
    assert wire[4..] == rest;
  }

  function Acks(n: nat): Bytes { seq(n, i => SOH) }

  predicate Sizes(blocks: seq<Bytes>) {
    forall i :: 0 <= i < |blocks| ==> 0 < |blocks[i]| <= 255
  }

  /** What is true of `ReadFrame`, for a reader in general. */
  ghost predicate TakesFrames(read: FrameReader) {
    && (forall buf, data, rest :: 0 < |data| <= 255 ==>
          read(buf, EncodeFrame(data) + rest) == Turn(Reading(buf + data), [SOH], rest))
    && (forall buf, rest :: read(buf, EncodeEof() + rest) == Turn(Finished(buf), [SOH], rest))
  }

  lemma ReadFrameTakes()
    ensures TakesFrames(Reader())
  {
    forall buf, data, rest | 0 < |data| <= 255
      ensures ReadFrame(buf, EncodeFrame(data) + rest) == Turn(Reading(buf + data), [SOH], rest)
    {
      GoodFrame(buf, data, rest);
    }
    forall buf, rest ensures ReadFrame(buf, EncodeEof() + rest) == Turn(Finished(buf), [SOH], rest) {
      EofFrame(buf, rest);
    }
  }

  lemma AcksSum(n: nat)
    ensures [SOH] + Acks(n) == Acks(n + 1)
  {}

  lemma {:induction false} LockstepBlocks(read: FrameReader, buf: Bytes, blocks: seq<Bytes>)
    requires TakesFrames(read) && Sizes(blocks)
    ensures Lockstep(read, buf, [], Frames(blocks)) == Transfer(true, Some(buf + Flat(blocks)), Acks(|blocks| + 1), [])
    decreases |blocks|
  {
    var frames := Frames(blocks);
    assert [] + frames[0] == frames[0] + [];
    if blocks == [] {
      assert read(buf, EncodeEof() + []) == Turn(Finished(buf), [SOH], []);
      assert buf + [] == buf;
    } else {
      assert read(buf, EncodeFrame(blocks[0]) + []) == Turn(Reading(buf + blocks[0]), [SOH], []);
      LockstepBlocks(read, buf + blocks[0], blocks[1..]);
      assert frames[1..] == Frames(blocks[1..]);
      AcksSum(|blocks|);
      assert buf + blocks[0] + Flat(blocks[1..]) == buf + Flat(blocks);
    }
  }

  lemma {:induction false} FramesCount(blocks: seq<Bytes>)
    ensures |Frames(blocks)| == |blocks| + 1
  {
    if blocks != [] { FramesCount(blocks[1..]); }
  }

  /** `n` frames in lockstep: the receiver has exactly the data, after `n` acknowledgements and no octet left. */
  ghost predicate Completes(frames: seq<Bytes>, data: Bytes, n: nat) {
    |frames| == n && Lockstep(Reader(), [], [], frames) == Transfer(true, Some(data), Acks(n), [])
  }

  lemma BlocksSent(blocks: seq<Bytes>, data: Bytes, n: nat)
    requires Sizes(blocks) && Flat(blocks) == data && |blocks| == n
    ensures Completes(Frames(blocks), data, n + 1)
  {
    ReadFrameTakes();
    SentBy(Reader(), blocks, data);
    FramesCount(blocks);
  }

  lemma SentBy(read: FrameReader, blocks: seq<Bytes>, data: Bytes)
    requires TakesFrames(read) && Sizes(blocks) && Flat(blocks) == data
    ensures Lockstep(read, [], [], Frames(blocks)) == Transfer(true, Some(data), Acks(|blocks| + 1), [])
  {
    LockstepBlocks(read, [], blocks);
    assert [] + data == data;
  }

  /** Whatever the file and the block size, both ends finish, the receiver with exactly the file, after one
      acknowledgement for each of ceil(n / size) + 1 frames, with every octet read. */
  lemma TransferComplete(data: Bytes, size: nat)
    requires 1 <= size <= 255
    ensures Completes(Frames(Blocks(data, size)), data, Parts(|data|, size) + 1)
  {
    BlocksFacts(data, size);
    BlocksSent(Blocks(data, size), data, Parts(|data|, size));
  }

  lemma BlocksFacts(data: Bytes, size: nat)
    requires 1 <= size <= 255
    ensures Sizes(Blocks(data, size)) && Flat(Blocks(data, size)) == data
    ensures |Blocks(data, size)| == Parts(|data|, size)
    ensures |Frames(Blocks(data, size))| == Parts(|data|, size) + 1
  {
    BlocksJoin(data, size);
    BlockSizes(data, size);
    BlockCount(data, size);
    FramesCount(Blocks(data, size));
  }

  // ---- corruption -------------------------------------------------------------------------------------------

  lemma XorAway(x: byte, y: byte, c: byte)
    ensures x ^ c == y ^ c <==> x == y
    ensures c ^ x == c ^ y <==> x == y
  {}

  /** Two octet strings that differ in one place have different checksums. */
  lemma {:induction false} ChecksumDiffers(data: Bytes, j: nat, v: byte)
    requires j < |data| && v != data[j]
    ensures Checksum(data[j := v]) != Checksum(data)
    decreases |data|
  {
    var other := data[j := v];
    if j == 0 {
      assert other[1..] == data[1..];
      XorAway(v, data[0], Checksum(data[1..]));
    } else {
      assert other[1..] == data[1..][j - 1 := v];
      ChecksumDiffers(data[1..], j - 1, v);
      XorAway(Checksum(other[1..]), Checksum(data[1..]), data[0]);
    }
  }

  /** Behind the header, one octet changed: the checksum does not fit. */
  lemma BadData(buf: Bytes, header: Bytes, data: Bytes, j: nat, v: byte)
    requires |header| == 2 && j <= |data|
    requires v != (data + [Checksum(header + data)])[j]
    ensures ReadData(buf, header, |data|, (data + [Checksum(header + data)])[j := v]) == Turn(Failed, [CAN], [])
  {
    var check := Checksum(header + data);
    var wire := (data + [check])[j := v];
    if j == |data| {
      assert wire == data + [v] + [];
      DataRead(buf, header, data, v, []);
    } else {
      var other := data[j := v];
      assert wire == other + [check] + [];
      assert header + other == (header + data)[j + 2 := v];
      ChecksumDiffers(header + data, j + 2, v);
      DataRead(buf, header, other, check, []);
    }
  }

  /** A frame with one octet of its data or its checksum changed is turned down. */
  lemma BadFrame(buf: Bytes, data: Bytes, j: nat, v: byte)
    requires 0 < |data| <= 255 && 3 <= j < |EncodeFrame(data)| && v != EncodeFrame(data)[j]
    ensures ReadFrame(buf, EncodeFrame(data)[j := v]) == Turn(Failed, [CAN], [])
  {
    var header := Header(|data|);
    var behind := data + [Checksum(header + data)];
    BadData(buf, header, data, j - 3, v);
    SameHeader(data, header, behind, j, v);
    HeaderLength(|data|);
  }

  lemma SameHeader(data: Bytes, header: Bytes, behind: Bytes, j: nat, v: byte)
    requires header == Header(|data|) && behind == data + [Checksum(header + data)]
    requires 3 <= j < |EncodeFrame(data)|
    ensures var wire := EncodeFrame(data)[j := v];
            |wire| > 3 && wire[0] == SOH && wire[1] == header[0] && wire[2] == header[1] &&
            wire[1..3] == header && wire[3..] == behind[j - 3 := v]
    ensures EncodeFrame(data)[j] == behind[j - 3]
  {
    assert EncodeFrame(data) == ([SOH] + header) + behind;
    UpdateBehind([SOH] + header, behind, j, v);
  }

  lemma UpdateBehind(front: Bytes, behind: Bytes, j: nat, v: byte)
    requires |front| <= j < |front| + |behind|
    ensures (front + behind)[j := v] == front + behind[j - |front| := v]
    ensures (front + behind)[j] == behind[j - |front|]
  {}

  function Changed(frame: Bytes, j: nat, v: byte): Bytes {
    if j < |frame| then frame[j := v] else frame
  }

  ghost predicate RefusesChanged(read: FrameReader) {
    forall buf, data, j, v ::
      0 < |data| <= 255 && 3 <= j < |EncodeFrame(data)| && v != EncodeFrame(data)[j] ==>
        read(buf, Changed(EncodeFrame(data), j, v)) == Turn(Failed, [CAN], [])
  }

  lemma ReadFrameRefuses()
    ensures RefusesChanged(Reader())
  {
    forall buf, data, j, v | 0 < |data| <= 255 && 3 <= j < |EncodeFrame(data)| && v != EncodeFrame(data)[j]
      ensures ReadFrame(buf, Changed(EncodeFrame(data), j, v)) == Turn(Failed, [CAN], [])
    {
      BadFrame(buf, data, j, v);
    }
  }

  lemma {:induction false} LockstepBad(read: FrameReader, buf: Bytes, blocks: seq<Bytes>, k: nat, j: nat, v: byte)
    requires TakesFrames(read) && RefusesChanged(read)
    requires Sizes(blocks) && k < |blocks| && |Frames(blocks)| == |blocks| + 1
    requires 3 <= j < |Frames(blocks)[k]| && v != Frames(blocks)[k][j]
    ensures Lockstep(read, buf, [], Frames(blocks)[k := Frames(blocks)[k][j := v]]) ==
            Transfer(false, None, Acks(k) + [CAN], [])
    decreases |blocks|
  {
    var frames := Frames(blocks);
    var delivered := frames[k := frames[k][j := v]];
    assert [] + delivered[0] == delivered[0] + [] == delivered[0];
    if k == 0 {
      assert delivered[0] == Changed(EncodeFrame(blocks[0]), j, v);
      assert Acks(0) + [CAN] == [CAN];
    } else {
      assert read(buf, EncodeFrame(blocks[0]) + []) == Turn(Reading(buf + blocks[0]), [SOH], []);
      FramesCount(blocks[1..]);
      assert delivered[1..] == Frames(blocks[1..])[k - 1 := frames[k][j := v]];
      LockstepBad(read, buf + blocks[0], blocks[1..], k - 1, j, v);
      AcksSum(k - 1);
      Chain([SOH], Acks(k - 1), [CAN]);
    }
  }

  /** If one data or checksum octet of any data frame is changed on the way, the receiver aborts there and has
      no file, and the sender knows. */
  lemma CorruptionAborts(data: Bytes, size: nat, k: nat, j: nat, v: byte)
    requires 1 <= size <= 255
    requires k < |Frames(Blocks(data, size))| - 1
    requires 3 <= j < |Frames(Blocks(data, size))[k]| && v != Frames(Blocks(data, size))[k][j]
    ensures var frames := Frames(Blocks(data, size));
            Lockstep(Reader(), [], [], frames[k := frames[k][j := v]]) == Transfer(false, None, Acks(k) + [CAN], [])
  {
    BlocksFacts(data, size);
    ReadFrameTakes();
    ReadFrameRefuses();
    LockstepBad(Reader(), [], Blocks(data, size), k, j, v);
  }

  // ---- each end by itself -------------------------------------------------------------------------------------

  /** Every frame carries its block, and the last one ends the file. */
  ghost predicate Carries(read: FrameReader, frames: seq<Bytes>, blocks: seq<Bytes>) {
    && |frames| == |blocks| + 1
    && (forall i, buf, rest :: 0 <= i < |blocks| ==>
          read(buf, frames[i] + rest) == Turn(Reading(buf + blocks[i]), [SOH], rest))
    && (forall buf, rest :: read(buf, frames[|blocks|] + rest) == Turn(Finished(buf), [SOH], rest))
  }

  lemma {:induction false} FramesAt(blocks: seq<Bytes>, i: nat)
    requires i <= |blocks|
    ensures |Frames(blocks)| == |blocks| + 1
    ensures Frames(blocks)[i] == if i < |blocks| then EncodeFrame(blocks[i]) else EncodeEof()
    decreases |blocks|
  {
    FramesCount(blocks);
    if i > 0 { FramesAt(blocks[1..], i - 1); }
  }

  lemma FramesCarry(blocks: seq<Bytes>)
    requires Sizes(blocks)
    ensures Carries(Reader(), Frames(blocks), blocks)
  {
    FramesCount(blocks);
    forall i, buf, rest | 0 <= i < |blocks|
      ensures ReadFrame(buf, Frames(blocks)[i] + rest) == Turn(Reading(buf + blocks[i]), [SOH], rest)
    {
      FramesAt(blocks, i);
      GoodFrame(buf, blocks[i], rest);
    }
    forall buf, rest ensures ReadFrame(buf, Frames(blocks)[|blocks|] + rest) == Turn(Finished(buf), [SOH], rest) {
      FramesAt(blocks, |blocks|);
      EofFrame(buf, rest);
    }
  }

  lemma CarriesTail(read: FrameReader, frames: seq<Bytes>, blocks: seq<Bytes>)
    requires Carries(read, frames, blocks) && blocks != []
    ensures Carries(read, frames[1..], blocks[1..])
  {
    forall i, buf, rest | 0 <= i < |blocks| - 1
      ensures read(buf, frames[1..][i] + rest) == Turn(Reading(buf + blocks[1..][i]), [SOH], rest)
    {
      assert frames[1..][i] == frames[i + 1] && blocks[1..][i] == blocks[i + 1];
    }
    assert frames[1..][|blocks| - 1] == frames[|blocks|];
  }

  lemma CarriesFirst(read: FrameReader, frames: seq<Bytes>, blocks: seq<Bytes>, buf: Bytes, rest: Bytes)
    requires Carries(read, frames, blocks)
    ensures blocks != [] ==>
              read(buf, Flat(frames) + rest) == Turn(Reading(buf + blocks[0]), [SOH], Flat(frames[1..]) + rest)
    ensures blocks == [] ==> read(buf, Flat(frames) + rest) == Turn(Finished(buf), [SOH], rest)
  {
    assert Flat(frames) + rest == frames[0] + (Flat(frames[1..]) + rest);
    if blocks == [] { FlatOne(frames[0]); }
  }

  lemma {:induction false} ReceiveFrames(read: FrameReader, buf: Bytes, frames: seq<Bytes>, blocks: seq<Bytes>, rest: Bytes)
    requires Carries(read, frames, blocks)
    ensures Receive(read, buf, Flat(frames) + rest) == Reception(Some(buf + Flat(blocks)), Acks(|blocks| + 1), rest)
    decreases |blocks|
  {
    CarriesFirst(read, frames, blocks, buf, rest);
    if blocks == [] {
      assert buf + [] == buf;
    } else {
      CarriesTail(read, frames, blocks);
      ReceiveFrames(read, buf + blocks[0], frames[1..], blocks[1..], rest);
      ReceiveOne(read, buf, Flat(frames) + rest, buf + blocks[0], Flat(frames[1..]) + rest,
                 buf + blocks[0] + Flat(blocks[1..]), |blocks|, rest);
      assert buf + blocks[0] + Flat(blocks[1..]) == buf + Flat(blocks);
    }
  }

  /** The receiver does not need the lockstep: given all frames it finds the same file. */
  lemma ReceiveComplete(data: Bytes, size: nat, rest: Bytes)
    requires 1 <= size <= 255
    ensures Receive(Reader(), [], Flat(Frames(Blocks(data, size))) + rest) ==
            Reception(Some(data), Acks(Parts(|data|, size) + 1), rest)
  {
    BlocksFacts(data, size);
    BlocksReceived(Blocks(data, size), data, rest);
  }

  lemma BlocksReceived(blocks: seq<Bytes>, data: Bytes, rest: Bytes)
    requires Sizes(blocks) && Flat(blocks) == data
    ensures Receive(Reader(), [], Flat(Frames(blocks)) + rest) == Reception(Some(data), Acks(|blocks| + 1), rest)
  {
    FramesCarry(blocks);
    ReceiveFrames(Reader(), [], Frames(blocks), blocks, rest);
    assert [] + data == data;
  }

  lemma ReceiveOne(read: FrameReader, buf: Bytes, wire: Bytes, more: Bytes, later: Bytes,
                   file: Bytes, n: nat, rest: Bytes)
    requires read(buf, wire) == Turn(Reading(more), [SOH], later)
    requires Receive(read, more, later) == Reception(Some(file), Acks(n), rest)
    ensures Receive(read, buf, wire) == Reception(Some(file), Acks(n + 1), rest)
  {
    AcksSum(n);
  }

  /** And the sender, given its acknowledgements, writes every frame once. */
  lemma {:induction false} SendAll(frames: seq<Bytes>, rest: Bytes)
    ensures Send(frames, Acks(|frames|) + rest) == Sending(true, frames, rest)
    decreases |frames|
  {
    if frames == [] {
      assert Acks(0) + rest == rest;
    } else {
      var replies := Acks(|frames|) + rest;
      assert replies[1..] == Acks(|frames| - 1) + rest;
      SendAll(frames[1..], rest);
      assert frames == [frames[0]] + frames[1..];
    }
  }

  // ---- the loops ------------------------------------------------------------------------------------------------

  method ChecksumOf(data: Bytes) returns (ck: byte)
    ensures ck == Checksum(data)
  {
    ck := 0;
    ZeroXor(Checksum(data));
    for i := 0 to |data|
      invariant ck ^ Checksum(data[i..]) == Checksum(data)
    {
      assert data[i..][0] == data[i] && data[i..][1..] == data[i + 1..];
      XorAssociates(ck, data[i], Checksum(data[i + 1..]));
      ck := ck ^ data[i];
    }
    assert data[|data|..] == [];
    ZeroXor(ck);
  }

  lemma ZeroXor(x: byte)
    ensures x ^ 0 == x && 0 ^ x == x
  {}

  lemma XorAssociates(x: byte, y: byte, z: byte)
    ensures x ^ (y ^ z) == (x ^ y) ^ z
  {}

  /** The caller keeps to the limit of 255 octets. */
  method FrameOf(data: Bytes) returns (frame: Bytes)
    requires |data| <= 255
    ensures frame == EncodeFrame(data)
  {
    var payload := Header(|data|) + data;
    var ck := ChecksumOf(payload);
    frame := [SOH] + payload + [ck];
  }

  method EncodeFile(data: Bytes, blockSize: nat) returns (frames: seq<Bytes>)
    requires 1 <= blockSize <= 255
    ensures frames == Frames(Blocks(data, blockSize))
  {
    frames := [];
    var offset := 0;
    ghost var rest, goal := data, Frames(Blocks(data, blockSize));
    while offset < |data|
      invariant 0 <= offset
      invariant rest == if offset < |data| then data[offset..] else []
      invariant frames + Frames(Blocks(rest, blockSize)) == goal
      decreases |data| - offset
    {
      var end := if offset + blockSize < |data| then offset + blockSize else |data|;
      var chunk := data[offset..end];
      CutAt(data, offset, end);
      NextOffset(data, offset, end, blockSize);
      frames := AppendFrame(frames, chunk, rest, data[end..], blockSize);
      rest := data[end..];
      offset := offset + blockSize;
    }
    NoBlocks(blockSize);
    frames := frames + [EncodeEof()];
  }

  lemma NoBlocks(size: nat)
    requires size > 0
    ensures Frames(Blocks([], size)) == [EncodeEof()]
  {}

  /** One more block, in its frame. */
  method AppendFrame(frames: seq<Bytes>, chunk: Bytes, ghost data: Bytes, ghost later: Bytes, ghost size: nat)
    returns (out: seq<Bytes>)
    requires 1 <= size <= 255 && data != [] && data == chunk + later
    requires |chunk| == if |data| <= size then |data| else size
    ensures out + Frames(Blocks(later, size)) == frames + Frames(Blocks(data, size))
  {
    NextBlock(frames, data, chunk, later, size);
    var frame := FrameOf(chunk);
    out := frames + [frame];
  }

  lemma NextOffset(data: Bytes, offset: nat, end: nat, size: nat)
    requires offset < |data| && size > 0
    requires end == if offset + size < |data| then offset + size else |data|
    ensures data[end..] == if offset + size < |data| then data[offset + size..] else []
    ensures |data[offset..end]| == if |data[offset..]| <= size then |data[offset..]| else size
  {}

  lemma CutAt(data: Bytes, i: nat, j: nat)
    requires i <= j <= |data|
    ensures data[i..] == data[i..j] + data[j..]
  {}

  lemma Regroup(xs: seq<Bytes>, x: Bytes, ys: seq<Bytes>)
    ensures xs + ([x] + ys) == xs + [x] + ys
  {}

  lemma NextBlock(frames: seq<Bytes>, data: Bytes, chunk: Bytes, rest: Bytes, size: nat)
    requires size > 0 && data != [] && data == chunk + rest
    requires |chunk| == if |data| <= size then |data| else size
    ensures frames + Frames(Blocks(data, size)) == frames + [EncodeFrame(chunk)] + Frames(Blocks(rest, size))
  {
    FirstBlock(data, chunk, rest, size);
    Regroup(frames, EncodeFrame(chunk), Frames(Blocks(rest, size)));
  }

  lemma FirstBlock(data: Bytes, chunk: Bytes, rest: Bytes, size: nat)
    requires size > 0 && data != [] && data == chunk + rest
    requires |chunk| == if |data| <= size then |data| else size
    ensures Frames(Blocks(data, size)) == [EncodeFrame(chunk)] + Frames(Blocks(rest, size))
  {
    if |data| <= size {
      assert rest == [] && chunk == data;
      assert [data][1..] == [];
    } else {
      assert data[..size] == chunk && data[size..] == rest;
      assert Blocks(data, size)[1..] == Blocks(rest, size);
    }
  }

  /** One end of the link: the octets still to be read, and those written. */
  class Port {
    var input: Bytes
    var output: Bytes

    constructor (input: Bytes)
      ensures this.input == input && output == []
    {
      this.input, output := input, [];
    }

    /** `None` is a timeout: the octets never come, and none is used up. */
    method ReadBytes(n: nat) returns (octets: Option<Bytes>)
      modifies this`input
      ensures octets == if n <= |old(input)| then Some(old(input)[..n]) else None
      ensures input == if n <= |old(input)| then old(input)[n..] else old(input)
    {
      if |input| < n { return None; }
      octets := Some(input[..n]);
      input := input[n..];
    }

    method WriteBytes(octets: Bytes)
      modifies this`output
      ensures output == old(output) + octets
    {
      output := output + octets;
    }
  }

  /** One turn of the receive loop on a port. */
  method ReceiveTurn(port: Port, buf: Bytes) returns (turn: Turn)
    modifies port
    ensures turn == ReadFrame(buf, old(port.input))
    ensures turn.Turn? ==> port.input == turn.rest && port.output == old(port.output) + turn.reply
    ensures turn.Waits? ==> port.output == old(port.output)
  {
    var soh := port.ReadBytes(1);
    if soh.None? { return Waits; }
    if soh.value[0] != SOH {
      assert port.output + [] == port.output;
      return Turn(Failed, [], port.input);
    }
    var len := port.ReadBytes(2);
    if len.None? { return Waits; }
    var length := Length(len.value[0], len.value[1]);
    assert len.value == old(port.input)[1..3] && port.input == old(port.input)[3..];
    if length == 0 {
      var _ := port.ReadBytes(1);
      port.WriteBytes([SOH]);
      return Turn(Finished(buf), [SOH], port.input);
    }
    turn := ReceiveData(port, buf, len.value, length);
  }

  method ReceiveData(port: Port, buf: Bytes, header: Bytes, length: nat) returns (turn: Turn)
    modifies port
    ensures turn == ReadData(buf, header, length, old(port.input))
    ensures turn.Turn? ==> port.input == turn.rest && port.output == old(port.output) + turn.reply
    ensures turn.Waits? ==> port.output == old(port.output)
  {
    var frameData := port.ReadBytes(length + 1);
    if frameData.None? { return Waits; }
    var data, received := frameData.value[..length], frameData.value[length];
    assert data == old(port.input)[..length];
    var expected := ChecksumOf(header + data);
    if expected != received {
      port.WriteBytes([CAN]);
      return Turn(Failed, [CAN], port.input);
    }
    port.WriteBytes([SOH]);
    turn := Turn(Reading(buf + data), [SOH], port.input);
  }

  /** What the loop has still to do, behind the replies already sent. */
  function Behind(replies: Bytes, r: Reception): Reception { Reception(r.file, replies + r.replies, r.rest) }

  lemma BehindNone(r: Reception)
    ensures Behind([], r) == r
  {
    assert [] + r.replies == r.replies;
  }

  lemma TurnTaken(read: FrameReader, replies: Bytes, buf: Bytes, wire: Bytes, turn: Turn)
    requires turn == read(buf, wire)
    ensures turn.Waits? ==> Behind(replies, Receive(read, buf, wire)) == Reception(None, replies, wire)
    ensures turn.Turn? && turn.next.Reading? ==>
              Behind(replies, Receive(read, buf, wire)) == Behind(replies + turn.reply, Receive(read, turn.next.buf, turn.rest))
    ensures turn.Turn? && turn.next.Finished? ==>
              Behind(replies, Receive(read, buf, wire)) == Reception(Some(turn.next.data), replies + turn.reply, turn.rest)
    ensures turn.Turn? && turn.next.Failed? ==>
              Behind(replies, Receive(read, buf, wire)) == Reception(None, replies + turn.reply, turn.rest)
  {
    assert replies + [] == replies;
    if turn.Turn? && turn.next.Reading? {
      var later := Receive(read, turn.next.buf, turn.rest).replies;
      assert replies + (turn.reply + later) == replies + turn.reply + later;
    }
  }

  method ReceiveFile(port: Port) returns (file: Option<Bytes>)
    modifies port
    ensures file == Receive(Reader(), [], old(port.input)).file
    ensures port.output == old(port.output) + Receive(Reader(), [], old(port.input)).replies
  {
    var buf: Bytes := [];
    ghost var replies: Bytes := [];
    ghost var all := Receive(Reader(), [], port.input);
    BehindNone(all);
    assert port.output + [] == port.output;
    while true
      invariant port.output == old(port.output) + replies
      invariant all == Behind(replies, Receive(Reader(), buf, port.input))
      decreases |port.input|
    {
      var turn := TakeTurn(port, buf, replies, all);
      if turn.Waits? {
        return None;
      }
      Chain(old(port.output), replies, turn.reply);
      replies := replies + turn.reply;
      match turn.next
      case Finished(data) => return Some(data);
      case Failed => return None;
      case Reading(more) => buf := more;
    }
  }

  /** A turn of the loop, and what it leaves to be done. */
  method TakeTurn(port: Port, buf: Bytes, ghost replies: Bytes, ghost all: Reception) returns (turn: Turn)
    requires all == Behind(replies, Receive(Reader(), buf, port.input))
    modifies port
    ensures turn.Waits? ==> port.output == old(port.output) && all.file == None && all.replies == replies
    ensures turn.Turn? ==> |port.input| < |old(port.input)| && port.output == old(port.output) + turn.reply
    ensures turn.Turn? && turn.next.Reading? ==>
              all == Behind(replies + turn.reply, Receive(Reader(), turn.next.buf, port.input))
    ensures turn.Turn? && turn.next.Finished? ==>
              all.file == Some(turn.next.data) && all.replies == replies + turn.reply
    ensures turn.Turn? && turn.next.Failed? ==> all.file == None && all.replies == replies + turn.reply
  {
    ghost var wire := port.input;
    turn := ReceiveTurn(port, buf);
    TurnTaken(Reader(), replies, buf, wire, turn);
  }

  /** What the sender has still to do, behind the frames already written. */
  function After(written: seq<Bytes>, r: Sending): Sending { Sending(r.ok, written + r.written, r.rest) }

  lemma SendOne(written: seq<Bytes>, frames: seq<Bytes>, replies: Bytes)
    requires frames != []
    ensures replies == [] || replies[0] == CAN ==>
              !Send(frames, replies).ok && After(written, Send(frames, replies)).written == written + [frames[0]]
    ensures replies != [] && replies[0] != CAN ==>
              After(written, Send(frames, replies)) == After(written + [frames[0]], Send(frames[1..], replies[1..]))
  {
    if replies != [] && replies[0] != CAN {
      Regroup(written, frames[0], Send(frames[1..], replies[1..]).written);
    }
  }

  /** One frame out; anything but an abort acknowledges it. */
  method SendFrame(frame: Bytes, port: Port) returns (acknowledged: bool)
    modifies port
    ensures port.output == old(port.output) + frame
    ensures acknowledged == (old(port.input) != [] && old(port.input)[0] != CAN)
    ensures acknowledged ==> port.input == old(port.input)[1..]
  {
    port.WriteBytes(frame);
    var ack := port.ReadBytes(1);
    acknowledged := ack.Some? && ack.value[0] != CAN;
  }

  /** The loop of the sender, after the announcement. */
  method SendFrames(frames: seq<Bytes>, port: Port) returns (ok: bool)
    modifies port
    ensures ok == Send(frames, old(port.input)).ok
    ensures port.output == old(port.output) + Flat(Send(frames, old(port.input)).written)
  {
    ghost var written: seq<Bytes> := [];
    assert After([], Send(frames, port.input)) == Send(frames, port.input) by {
      assert [] + Send(frames, port.input).written == Send(frames, port.input).written;
    }
    assert port.output + Flat(written) == port.output;
    for i := 0 to |frames|
      invariant Send(frames, old(port.input)) == After(written, Send(frames[i..], port.input))
      invariant port.output == old(port.output) + Flat(written)
    {
      assert frames[i..][0] == frames[i] && frames[i..][1..] == frames[i + 1..];
      SendOne(written, frames[i..], port.input);
      FlatSnoc(written, frames[i]);
      written := written + [frames[i]];
      var acknowledged := SendFrame(frames[i], port);
      if !acknowledged { return false; }
    }
    assert written + [] == written;
    return true;
  }
}
