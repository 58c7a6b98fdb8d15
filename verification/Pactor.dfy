/** HOST mode framing of a PACTOR modem: mark, channel, status, length, payload. Frames are cut by their
    length octet, so payloads are not escaped; noise before a mark is thrown away. */
module Pactor {
  import opened Common
  import opened Bits
  import opened Numbers

  const HOST_MARK: byte := 0xAA

  datatype HostFrame = HostFrame(channel: byte, status: byte, payload: Bytes)

  /** The octets of a frame, or the check that failed. */
  function EncodeHostFrame(channel: int, status: int, payload: Bytes): Result<Bytes> {
    if !(0 <= channel <= 255) then Err("HOST channel must be between 0 and 255")
    else if !(0 <= status <= 255) then Err("HOST status must be between 0 and 255")
    else if |payload| > 255 then Err("HOST payload cannot exceed 255 bytes")
    else Ok(Octets(Octet(channel), Octet(status), payload))
  }

  function Octets(channel: byte, status: byte, payload: Bytes): Bytes
    requires |payload| <= 255
  {
    [HOST_MARK, channel, status, Octet(|payload|)] + payload
  }

  /** The index of the first mark, or the length. */
  function Until(buf: Bytes): (r: nat)
    ensures r <= |buf|
    ensures r < |buf| ==> buf[r] == HOST_MARK
  {
    if buf == [] || buf[0] == HOST_MARK then 0 else 1 + Until(buf[1..])
  }

  function Size(buf: Bytes): nat
    requires |buf| >= 4
  {
    4 + Value(buf[3])
  }

  datatype Decoded = Decoded(frames: seq<HostFrame>, rest: Bytes)

  function Onto(frames: seq<HostFrame>, more: Decoded): Decoded { Decoded(frames + more.frames, more.rest) }

  /** At a mark: wait for the header, then for the payload. */
  predicate Complete(buf: Bytes) { |buf| >= 4 && |buf| >= Size(buf) }

  function First(buf: Bytes): HostFrame
    requires Complete(buf)
  {
    HostFrame(buf[1], buf[2], buf[4..Size(buf)])
  }

  function Decode(buf: Bytes): Decoded
    decreases |buf|
  {
    var at := buf[Until(buf)..];
    if Complete(at) then Onto([First(at)], Decode(at[Size(at)..])) else Decoded([], at)
  }

  // ---- any chunks ------------------------------------------------------------------------------------

  lemma {:induction false} UntilMore(a: Bytes, b: Bytes)
    ensures Until(a + b) == if Until(a) < |a| then Until(a) else |a| + Until(b)
    decreases |a|
  {
    if a == [] {
      assert a + b == b;
    } else {
      assert (a + b)[1..] == a[1..] + b;
      if a[0] != HOST_MARK { UntilMore(a[1..], b); }
    }
  }

  lemma CompleteMore(at: Bytes, b: Bytes)
    requires Complete(at)
    ensures Complete(at + b) && First(at + b) == First(at) && Size(at + b) == Size(at)
    ensures (at + b)[Size(at)..] == at[Size(at)..] + b
  {
    assert (at + b)[4..Size(at)] == at[4..Size(at)];
  }

  lemma DecodeFrom(buf: Bytes, at: Bytes)
    requires at == buf[Until(buf)..]
    ensures Decode(buf) == Decode(at)
  {
    if at != [] { assert Until(at) == 0 && at[0..] == at; }
  }

  lemma AtMark(a: Bytes, b: Bytes)
    ensures Decode(a + b) == Decode(a[Until(a)..] + b)
  {
    var at := a[Until(a)..];
    UntilMore(a, b);
    UntilMore(at, b);
    assert Until(at) == 0;
    assert (a + b)[Until(a + b)..] == (at + b)[Until(at + b)..];
    DecodeFrom(a + b, (a + b)[Until(a + b)..]);
    DecodeFrom(at + b, (a + b)[Until(a + b)..]);
  }

  lemma OntoOnto(xs: seq<HostFrame>, ys: seq<HostFrame>, more: Decoded)
    ensures Onto(xs, Onto(ys, more)) == Onto(xs + ys, more)
  {
    assert xs + (ys + more.frames) == xs + ys + more.frames;
  }

  /** Octets that come later are decoded behind what the earlier ones left over. */
  lemma {:induction false} DecodeMore(a: Bytes, b: Bytes)
    ensures Decode(a + b) == Onto(Decode(a).frames, Decode(Decode(a).rest + b))
    decreases |a|
  {
    var at := a[Until(a)..];
    AtMark(a, b);
    if Complete(at) {
      CompleteMore(at, b);
      var later := at[Size(at)..];
      DecodeMore(later, b);
      CompleteFirst(at + b);
      OntoOnto([First(at)], Decode(later).frames, Decode(Decode(later).rest + b));
    } else {
      var all := Decode(at + b);
      assert [] + all.frames == all.frames;
    }
  }

  lemma CompleteFirst(at: Bytes)
    requires Complete(at) && at[0] == HOST_MARK
    ensures Decode(at) == Onto([First(at)], Decode(at[Size(at)..]))
  {
    assert at[Until(at)..] == at;
  }

  type Decoder = Bytes -> Decoded

  /** Several reads, each appended to what the one before left over. */
  function Feed(decode: Decoder, buf: Bytes, chunks: seq<Bytes>): Decoded
    decreases |chunks|
  {
    if chunks == [] then Decoded([], buf)
    else
      var now := decode(buf + chunks[0]);
      Onto(now.frames, Feed(decode, now.rest, chunks[1..]))
  }

  /** Nothing more can be taken out of what was left over. */
  lemma {:induction false} RestIsDone(buf: Bytes)
    ensures Decode(Decode(buf).rest) == Decoded([], Decode(buf).rest)
    decreases |buf|
  {
    var at := buf[Until(buf)..];
    if Complete(at) {
      RestIsDone(at[Size(at)..]);
    } else if at != [] {
      assert at[Until(at)..] == at;
    }
  }

  /** A decoder that goes on where it left off does not depend on how its input is divided. */
  lemma {:induction false} Streaming(decode: Decoder, buf: Bytes, chunks: seq<Bytes>)
    requires forall a, b :: decode(a + b) == Onto(decode(a).frames, decode(decode(a).rest + b))
    requires forall a :: decode(decode(a).rest) == Decoded([], decode(a).rest)
    requires decode(buf) == Decoded([], buf)
    ensures Feed(decode, buf, chunks) == decode(buf + Flat(chunks))
    decreases |chunks|
  {
    if chunks == [] {
      assert buf + [] == buf;
    } else {
      var now := decode(buf + chunks[0]);
      assert now == decode(buf + chunks[0]);
      Streaming(decode, now.rest, chunks[1..]);
      assert buf + Flat(chunks) == (buf + chunks[0]) + Flat(chunks[1..]);
    }
  }

  /** Whatever the octets, noise included, and however they are divided, the frames and the octets left
      over are those of one read of all of them. */
  lemma AnyChunks(chunks: seq<Bytes>)
    ensures Feed(Decode, [], chunks) == Decode(Flat(chunks))
  {
    forall a, b ensures Decode(a + b) == Onto(Decode(a).frames, Decode(Decode(a).rest + b)) { DecodeMore(a, b); }
    forall a ensures Decode(Decode(a).rest) == Decoded([], Decode(a).rest) { RestIsDone(a); }
    Streaming(Decode, [], chunks);
    assert [] + Flat(chunks) == Flat(chunks);
  }

  // ---- round trip ---------------------------------------------------------------------------------------

  /** Frames that can be encoded. */
  predicate Short(frames: seq<HostFrame>) { forall i :: 0 <= i < |frames| ==> |frames[i].payload| <= 255 }

  /** Octets without a mark. */
  predicate Quiet(noise: seq<Bytes>) { forall i :: 0 <= i < |noise| ==> HOST_MARK !in noise[i] }

  /** Frames as encoded, each behind some noise. */
  function Stream(frames: seq<HostFrame>, noise: seq<Bytes>): Bytes
    requires |noise| == |frames| && Short(frames)
  {
    if frames == [] then []
    else
      noise[0] + Octets(frames[0].channel, frames[0].status, frames[0].payload) + Stream(frames[1..], noise[1..])
  }

  lemma {:induction false} UntilNoise(noise: Bytes, rest: Bytes)
    requires HOST_MARK !in noise && rest != [] && rest[0] == HOST_MARK
    ensures Until(noise + rest) == |noise| && (noise + rest)[|noise|..] == rest
    decreases |noise|
  {
    if noise == [] {
      assert noise + rest == rest;
    } else {
      assert (noise + rest)[1..] == noise[1..] + rest;
      UntilNoise(noise[1..], rest);
    }
  }

  lemma OctetsComplete(f: HostFrame, rest: Bytes)
    requires |f.payload| <= 255
    ensures var at := Octets(f.channel, f.status, f.payload) + rest;
            Complete(at) && First(at) == f && at[Size(at)..] == rest
  {
    ValueOfOctet(|f.payload|);
    var at := Octets(f.channel, f.status, f.payload) + rest;
    assert at[4..4 + |f.payload|] == f.payload;
  }

  lemma DecodeFirst(noise: Bytes, f: HostFrame, rest: Bytes)
    requires HOST_MARK !in noise && |f.payload| <= 255
    ensures Decode(noise + Octets(f.channel, f.status, f.payload) + rest) == Onto([f], Decode(rest))
  {
    var at := Octets(f.channel, f.status, f.payload) + rest;
    OctetsComplete(f, rest);
    UntilNoise(noise, at);
    assert noise + Octets(f.channel, f.status, f.payload) + rest == noise + at;
  }

  /** What is true of `Decode`, for a decoder in general. */
  ghost predicate TakesFirst(decode: Decoder) {
    && decode([]) == Decoded([], [])
    && forall noise: Bytes, f: HostFrame, rest: Bytes :: HOST_MARK !in noise && |f.payload| <= 255 ==>
         decode(noise + Octets(f.channel, f.status, f.payload) + rest) == Onto([f], decode(rest))
  }

  lemma DecodeTakesFirst()
    ensures TakesFirst(Decode)
  {
    forall noise: Bytes, f: HostFrame, rest: Bytes | HOST_MARK !in noise && |f.payload| <= 255
      ensures Decode(noise + Octets(f.channel, f.status, f.payload) + rest) == Onto([f], Decode(rest))
    {
      DecodeFirst(noise, f, rest);
    }
  }

  lemma {:induction false} StreamTaken(decode: Decoder, frames: seq<HostFrame>, noise: seq<Bytes>)
    requires TakesFirst(decode)
    requires |noise| == |frames| && Short(frames) && Quiet(noise)
    ensures decode(Stream(frames, noise)) == Decoded(frames, [])
    decreases |frames|
  {
    if frames != [] {
      StreamTaken(decode, frames[1..], noise[1..]);
      assert frames == [frames[0]] + frames[1..];
    }
  }

  /** The frames encoded are the frames decoded, in order, with nothing left over. */
  lemma StreamDecoded(frames: seq<HostFrame>, noise: seq<Bytes>)
    requires |noise| == |frames| && Short(frames) && Quiet(noise)
    ensures Decode(Stream(frames, noise)) == Decoded(frames, [])
  {
    DecodeTakesFirst();
    StreamTaken(Decode, frames, noise);
  }

  /** What can be encoded at all comes back in any chunks. */
  lemma EncodedDecoded(channel: int, status: int, payload: Bytes, chunks: seq<Bytes>)
    requires EncodeHostFrame(channel, status, payload).Ok?
    requires Flat(chunks) == EncodeHostFrame(channel, status, payload).value
    ensures 0 <= channel <= 255 && 0 <= status <= 255 && |payload| <= 255
    ensures Value(Octet(channel)) == channel && Value(Octet(status)) == status
    ensures Feed(Decode, [], chunks) == Decoded([HostFrame(Octet(channel), Octet(status), payload)], [])
  {
    ValueOfOctet(channel);
    ValueOfOctet(status);
    OneFrame(HostFrame(Octet(channel), Octet(status), payload));
    AnyChunks(chunks);
  }

  lemma OneFrame(f: HostFrame)
    requires |f.payload| <= 255
    ensures Decode(Octets(f.channel, f.status, f.payload)) == Decoded([f], [])
  {
    var quiet: seq<Bytes> := [[]];
    StreamDecoded([f], quiet);
    assert [f][1..] == [] && quiet[1..] == [];
    var octets := Octets(f.channel, f.status, f.payload);
    assert [] + octets + [] == octets;
  }

  // ---- any octets -----------------------------------------------------------------------------------------

  /** The mark 0xAA and then fewer octets than the header, or than its last octet asks for. */
  predicate Begun(buf: Bytes) { buf != [] && buf[0] == 0xAA && (|buf| < 4 || |buf| < 4 + Value(buf[3])) }

  /** The octets are `frames`, each behind some noise, then noise, and then `rest`. */
  ghost predicate Parsed(buf: Bytes, frames: seq<HostFrame>, noise: seq<Bytes>, last: Bytes, rest: Bytes) {
    && |noise| == |frames| && Short(frames) && Quiet(noise) && 0xAA !in last
    && buf == Stream(frames, noise) + (last + rest)
  }

  lemma {:induction false} UntilMark(buf: Bytes)
    ensures HOST_MARK !in buf[..Until(buf)]
    decreases |buf|
  {
    if buf != [] && buf[0] != HOST_MARK {
      UntilMark(buf[1..]);
      assert buf[..Until(buf)] == [buf[0]] + buf[1..][..Until(buf[1..])];
    }
  }

  lemma ValueBelow(x: byte)
    ensures Value(x) < 256 && Octet(Value(x)) == x
  {
    ValueAsNat(x);
    WordOctet(x, 8);
    PackOctet(x);
  }

  lemma FirstIs(at: Bytes)
    requires Complete(at) && at[0] == HOST_MARK
    ensures var f := First(at);
            |f.payload| <= 255 && at == Octets(f.channel, f.status, f.payload) + at[Size(at)..]
  {
    var f := First(at);
    ValueBelow(at[3]);
    assert at == at[..4] + at[4..Size(at)] + at[Size(at)..];
    assert at[..4] == [HOST_MARK, f.channel, f.status, at[3]];
  }

  /** Every buffer reads in this one way: what is delivered stands in it whole, what is thrown away is noise
      before a mark, and what stays is a frame begun. */
  lemma {:induction false} ParsedExactly(buf: Bytes) returns (noise: seq<Bytes>, last: Bytes)
    ensures Parsed(buf, Decode(buf).frames, noise, last, Decode(buf).rest)
    ensures Decode(buf).rest == [] || Begun(Decode(buf).rest)
    decreases |buf|
  {
    var z, at := buf[..Until(buf)], buf[Until(buf)..];
    UntilMark(buf);
    assert buf == z + at;
    if Complete(at) {
      FirstIs(at);
      var later := at[Size(at)..];
      var more, end := ParsedExactly(later);
      noise, last := [z] + more, end;
      OneInFront(buf, z, First(at), later, Decode(later).frames, more, end, Decode(later).rest);
    } else {
      noise, last := [], z;
      assert Stream([], []) + (z + at) == z + at;
    }
  }

  lemma OneInFront(buf: Bytes, z: Bytes, f: HostFrame, later: Bytes, frames: seq<HostFrame>, noise: seq<Bytes>,
                   last: Bytes, rest: Bytes)
    requires HOST_MARK !in z && |f.payload| <= 255 && Parsed(later, frames, noise, last, rest)
    requires buf == z + (Octets(f.channel, f.status, f.payload) + later)
    ensures Parsed(buf, [f] + frames, [z] + noise, last, rest)
  {
    var octets := Octets(f.channel, f.status, f.payload);
    assert ([f] + frames)[1..] == frames && ([z] + noise)[1..] == noise;
    Chain(z + octets, Stream(frames, noise), last + rest);
    Chain(z, octets, later);
  }

  predicate Written(octets: Bytes, channel: int, status: int, payload: Bytes) {
    && |octets| == |payload| + 4 && octets[0] == 0xAA && Value(octets[1]) == channel
    && Value(octets[2]) == status && Value(octets[3]) == |payload| && octets[4..] == payload
  }

  /** Which frames can be sent, what they look like, and the error for those that cannot. */
  lemma EncodesExactly(channel: int, status: int, payload: Bytes)
    ensures var r := EncodeHostFrame(channel, status, payload);
            && (r.Ok? <==> 0 <= channel < 256 && 0 <= status < 256 && |payload| < 256)
            && (r.Ok? ==> Written(r.value, channel, status, payload))
            && (!(0 <= channel < 256) ==> r == Err("HOST channel must be between 0 and 255"))
            && (0 <= channel < 256 && !(0 <= status < 256) ==> r == Err("HOST status must be between 0 and 255"))
            && (0 <= channel < 256 && 0 <= status < 256 && |payload| >= 256 ==>
                  r == Err("HOST payload cannot exceed 255 bytes"))
  {
    if 0 <= channel < 256 && 0 <= status < 256 && |payload| < 256 {
      ValueOfOctet(channel);
      ValueOfOctet(status);
      ValueOfOctet(|payload|);
    }
  }

  // ---- the loop -------------------------------------------------------------------------------------------

  /** A receive buffer, consumed in place. */
  class Buffer {
    var octets: Bytes

    constructor ()
      ensures octets == []
    {
      octets := [];
    }

    method DecodeHostStream() returns (frames: seq<HostFrame>)
      modifies this
      ensures Decoded(frames, octets) == Decode(old(octets))
    {
      frames := [];
      OntoNone(Decode(octets));
      while true
        invariant Decode(old(octets)) == Onto(frames, Decode(octets))
        decreases |octets|
      {
        var found := FindMark();
        if !found || |octets| < 4 {
          NoneComplete(frames, octets);
          return;
        }
        var length := Value(octets[3]);
        var total := 4 + length;
        if |octets| < total {
          NoneComplete(frames, octets);
          return;
        }
        ghost var at := octets;
        var frame := TakeFrame(total);
        OneComplete(frames, at, frame, octets);
        frames := frames + [frame];
      }
    }

    /** The frame at the front, `total` octets long, comes off the buffer. */
    method TakeFrame(total: nat) returns (frame: HostFrame)
      requires Complete(octets) && total == Size(octets)
      modifies this
      ensures frame == First(old(octets)) && octets == old(octets)[total..]
    {
      frame := HostFrame(octets[1], octets[2], octets[4..total]);
      octets := octets[total..];
    }

    /** Drops everything before the first mark. */
    method FindMark() returns (found: bool)
      modifies this
      ensures Decode(octets) == Decode(old(octets)) && |octets| <= |old(octets)|
      ensures Until(octets) == 0 && found == (octets != [])
    {
      var start := Until(octets);
      DecodeFrom(octets, octets[start..]);
      if start == |octets| {
        octets := [];
        return false;
      }
      if start != 0 {
        octets := octets[start..];
      }
      return true;
    }
  }

  lemma OntoNone(more: Decoded)
    ensures Onto([], more) == more
  {
    assert [] + more.frames == more.frames;
  }

  lemma NoneComplete(frames: seq<HostFrame>, buf: Bytes)
    requires Until(buf) == 0 && !Complete(buf)
    ensures Onto(frames, Decode(buf)) == Decoded(frames, buf)
  {
    assert buf[0..] == buf;
    assert frames + [] == frames;
  }

  lemma OneComplete(frames: seq<HostFrame>, at: Bytes, frame: HostFrame, rest: Bytes)
    requires Complete(at) && at[0] == HOST_MARK && frame == First(at) && rest == at[Size(at)..]
    ensures Onto(frames, Decode(at)) == Onto(frames + [frame], Decode(rest))
  {
    CompleteFirst(at);
    OntoOnto(frames, [frame], Decode(rest));
  }
}
