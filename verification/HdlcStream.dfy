/** Finding HDLC frames in a bit stream that arrives in pieces. `Extract` is one call of the
    extractor; a stream is fed to it chunk by chunk, each time behind the bits left over. */
module HdlcStream {
  import opened Common
  import opened Hdlc

  const MAX_REMAINDER_BITS := 8192

  // ---- cutting a stream at its flags ---------------------------------------------------------------

  /** The first eight bits are a flag. */
  predicate IsFlag(bits: seq<bool>)
    requires |bits| >= 8
  {
    !bits[0] && bits[1] && bits[2] && bits[3] && bits[4] && bits[5] && bits[6] && !bits[7]
  }

  /** Where the first flag starts. */
  function Seek(bits: seq<bool>): (r: Option<nat>)
    ensures r.Some? ==> r.value + 8 <= |bits|
    ensures |bits| < 8 ==> r == None
  {
    if |bits| < 8 then None
    else if IsFlag(bits) then Some(0)
    else
      var r := Seek(bits[1..]);
      if r.None? then None else Some(r.value + 1)
  }

  /** How a stretch between two flags is turned into a payload, if it is a good frame. */
  type Decoder = seq<bool> -> Option<Bytes>

  /** The stretches that end with a flag, and what follows the last one. */
  datatype Cut = Cut(pieces: seq<seq<bool>>, rest: seq<bool>)

  /** More stretches in front. */
  function Join(pieces: seq<seq<bool>>, cut: Cut): Cut { Cut(pieces + cut.pieces, cut.rest) }

  function Split(bits: seq<bool>): Cut
    decreases |bits|
  {
    var at := Seek(bits);
    if at.None? then Cut([], bits) else Join([bits[..at.value]], Split(bits[at.value + 8..]))
  }

  /** What `decode` makes of each stretch, in order. */
  function Gather(decode: Decoder, pieces: seq<seq<bool>>): seq<Bytes> {
    if pieces == [] then []
    else
      var one := decode(pieces[0]);
      (if one.Some? then [one.value] else []) + Gather(decode, pieces[1..])
  }

  datatype Extracted = Extracted(payloads: seq<Bytes>, rest: seq<bool>)

  /** The last seven bits: too few for a flag. */
  function Tail(bits: seq<bool>): seq<bool>
    requires |bits| >= 7
  {
    bits[|bits| - 7..]
  }

  /** One call, on bits cut at their flags: the stretch before the first flag is noise; the last flag
      stays in the remainder, unless that has grown too long. */
  function Found(decode: Decoder, bits: seq<bool>, cut: Cut): Extracted {
    if |cut.pieces| == 0 then
      Extracted([], if |bits| > MAX_REMAINDER_BITS then Tail(bits) else bits)
    else if GivesUp(cut) then
      Extracted([], if |bits| >= 7 then Tail(bits) else bits)
    else
      Extracted(Gather(decode, cut.pieces[1..]), Flag() + cut.rest)
  }

  /** A single flag and far too many bits behind it. */
  predicate GivesUp(cut: Cut) { |cut.pieces| == 1 && |cut.rest| + 8 > MAX_REMAINDER_BITS }

  function ExtractWith(decode: Decoder, bits: seq<bool>): Extracted { Found(decode, bits, Split(bits)) }

  /** The call gives the frame under way up. */
  predicate Stale(bits: seq<bool>) { GivesUp(Split(bits)) }

  /** The call drops noise. */
  predicate Noise(bits: seq<bool>) { |Split(bits).pieces| == 0 && |bits| > MAX_REMAINDER_BITS }

  predicate Trims(bits: seq<bool>) { Stale(bits) || Noise(bits) }

  // ---- many calls ------------------------------------------------------------------------------------

  type Extractor = seq<bool> -> Extracted

  /** All calls, each on the remainder of the one before with a chunk appended. */
  function Feed(extract: Extractor, rest: seq<bool>, chunks: seq<seq<bool>>): Extracted
    decreases |chunks|
  {
    if chunks == [] then Extracted([], rest)
    else
      var now := extract(rest + chunks[0]);
      var later := Feed(extract, now.rest, chunks[1..]);
      Extracted(now.payloads + later.payloads, later.rest)
  }

  /** No call is made on bits that are `bad`. */
  predicate Never(bad: seq<bool> -> bool, extract: Extractor, rest: seq<bool>, chunks: seq<seq<bool>>)
    decreases |chunks|
  {
    chunks == [] ||
    (!bad(rest + chunks[0]) && Never(bad, extract, extract(rest + chunks[0]).rest, chunks[1..]))
  }

  // ---- more bits behind ------------------------------------------------------------------------------

  lemma {:induction false} SeekMore(a: seq<bool>, b: seq<bool>)
    requires Seek(a).Some?
    ensures Seek(a + b) == Seek(a)
    decreases |a|
  {
    if !IsFlag(a) {
      assert (a + b)[1..] == a[1..] + b;
      SeekMore(a[1..], b);
    }
  }

  lemma JoinJoin(xs: seq<seq<bool>>, ys: seq<seq<bool>>, cut: Cut)
    ensures Join(xs, Join(ys, cut)) == Join(xs + ys, cut)
  {
    assert xs + (ys + cut.pieces) == xs + ys + cut.pieces;
  }

  lemma JoinNone(cut: Cut)
    ensures Join([], cut) == cut
  {
    assert [] + cut.pieces == cut.pieces;
  }

  /** Bits behind a stream only add to what follows its last flag. */
  lemma {:induction false} SplitMore(a: seq<bool>, b: seq<bool>)
    ensures Split(a + b) == Join(Split(a).pieces, Split(Split(a).rest + b))
    decreases |a|
  {
    if Seek(a).Some? {
      var at := Seek(a).value;
      SeekMore(a, b);
      SplitMore(a[at + 8..], b);
      SplitFirst(a, at, b);
      var after := Split(a[at + 8..]);
      JoinJoin([a[..at]], after.pieces, Split(after.rest + b));
    } else {
      JoinNone(Split(a + b));
    }
  }

  lemma SplitFirst(a: seq<bool>, at: nat, b: seq<bool>)
    requires Seek(a) == Some(at) && Seek(a + b) == Some(at)
    ensures Split(a + b) == Join([a[..at]], Split(a[at + 8..] + b))
  {
    assert (a + b)[at + 8..] == a[at + 8..] + b;
    assert (a + b)[..at] == a[..at];
  }

  lemma FlagFirst(b: seq<bool>)
    ensures Seek(Flag() + b) == Some(0)
    ensures Split(Flag() + b) == Join([[]], Split(b))
  {
    assert IsFlag(Flag() + b);
    assert (Flag() + b)[8..] == b;
    assert (Flag() + b)[..0] == [];
  }

  /** Without a flag so far, all but the last seven bits are irrelevant. */
  lemma {:induction false} SeekTail(a: seq<bool>, k: nat, b: seq<bool>)
    requires Seek(a) == None && k + 7 <= |a|
    ensures Seek(a + b) == if Seek(a[k..] + b).None? then None else Some(Seek(a[k..] + b).value + k)
    decreases k
  {
    if k > 0 {
      assert (a + b)[1..] == a[1..] + b;
      assert a[1..][k - 1..] == a[k..];
      SeekTail(a[1..], k - 1, b);
    } else {
      assert a[0..] == a;
    }
  }

  lemma {:induction false} GatherConcat(decode: Decoder, xs: seq<seq<bool>>, ys: seq<seq<bool>>)
    ensures Gather(decode, xs + ys) == Gather(decode, xs) + Gather(decode, ys)
    decreases |xs|
  {
    if xs == [] {
      assert xs + ys == ys;
    } else {
      assert (xs + ys)[1..] == xs[1..] + ys;
      GatherConcat(decode, xs[1..], ys);
    }
  }

  // ---- streaming is batch ------------------------------------------------------------------------------

  /** What a single call on the whole stream finds, leaving nothing out of the remainder. */
  function Whole(decode: Decoder, bits: seq<bool>): Extracted { Untrimmed(decode, bits, Split(bits)) }

  function Untrimmed(decode: Decoder, bits: seq<bool>, cut: Cut): Extracted {
    if cut.pieces == [] then Extracted([], bits) else Extracted(Gather(decode, cut.pieces[1..]), Flag() + cut.rest)
  }

  /** `rest` does for the rest of the stream what all of `seen` would: it is the remainder, or, when no
      flag has come yet, the end of it. */
  predicate Stands(seen: seq<bool>, rest: seq<bool>) { Covers(seen, Split(seen), rest) }

  predicate Covers(seen: seq<bool>, cut: Cut, rest: seq<bool>) {
    if cut.pieces == [] then
      |rest| <= |seen| && (rest == seen || |rest| >= 7) && rest == seen[|seen| - |rest|..]
    else
      rest == Flag() + cut.rest
  }

  /** One call on `bits` keeps the remainder good for the whole stream `all`, and finds the payloads
      that were not complete in `seen`. */
  ghost predicate Good(decode: Decoder, seen: seq<bool>, cut: Cut, rest: seq<bool>,
                       all: seq<bool>, allCut: Cut, bits: seq<bool>, bitsCut: Cut)
  {
    && Covers(all, allCut, Found(decode, bits, bitsCut).rest)
    && Untrimmed(decode, all, allCut).payloads ==
       Untrimmed(decode, seen, cut).payloads + Found(decode, bits, bitsCut).payloads
    && (rest == Untrimmed(decode, seen, cut).rest && !(bitsCut.pieces == [] && |bits| > MAX_REMAINDER_BITS) ==>
          Found(decode, bits, bitsCut).rest == Untrimmed(decode, all, allCut).rest)
  }

  lemma CallAfterFlag(decode: Decoder, seen: seq<bool>, cut: Cut, rest: seq<bool>,
                      all: seq<bool>, bits: seq<bool>, more: Cut)
    requires cut.pieces != [] && !GivesUp(Join([[]], more))
    ensures Good(decode, seen, cut, rest, all, Join(cut.pieces, more), bits, Join([[]], more))
  {
    assert ([[]] + more.pieces)[1..] == more.pieces;
    assert (cut.pieces + more.pieces)[1..] == cut.pieces[1..] + more.pieces;
    GatherConcat(decode, cut.pieces[1..], more.pieces);
  }

  lemma CallBeforeFlag(decode: Decoder, seen: seq<bool>, cut: Cut, rest: seq<bool>,
                       all: seq<bool>, allCut: Cut, bits: seq<bool>, bitsCut: Cut, k: nat)
    requires cut.pieces == [] && (k == 0 <==> rest == seen) && k <= |seen|
    requires k <= |all| && bits == all[k..] && (k > 0 ==> |bits| >= 7) && !GivesUp(bitsCut)
    requires allCut.pieces == [] <==> bitsCut.pieces == []
    requires allCut.pieces != [] ==> allCut.rest == bitsCut.rest && allCut.pieces[1..] == bitsCut.pieces[1..]
    ensures Good(decode, seen, cut, rest, all, allCut, bits, bitsCut)
  {}

  lemma SplitAt(bits: seq<bool>, at: nat, after: seq<bool>)
    requires Seek(bits) == Some(at) && after == bits[at + 8..]
    ensures Split(bits).rest == Split(after).rest
    ensures Split(bits).pieces != [] && Split(bits).pieces[1..] == Split(after).pieces
  {}

  /** Dropping `k` bits that no flag touches only shortens the stretch before the first flag. */
  lemma SplitLater(all: seq<bool>, bits: seq<bool>, k: nat)
    requires k <= |all| && bits == all[k..]
    requires Seek(all) == if Seek(bits).None? then None else Some(Seek(bits).value + k)
    ensures Split(all).pieces == [] <==> Split(bits).pieces == []
    ensures Split(all).pieces != [] ==>
              Split(all).rest == Split(bits).rest && Split(all).pieces[1..] == Split(bits).pieces[1..]
  {
    if Seek(bits).Some? {
      var at := Seek(bits).value;
      var after := bits[at + 8..];
      assert after == all[at + k + 8..];
      SplitAt(bits, at, after);
      SplitAt(all, at + k, after);
    }
  }

  lemma StepAfterFlag(decode: Decoder, seen: seq<bool>, cut: Cut, chunk: seq<bool>, all: seq<bool>, bits: seq<bool>)
    requires cut == Split(seen) && cut.pieces != [] && !Stale(bits)
    requires bits == Flag() + cut.rest + chunk && all == seen + chunk
    ensures Good(decode, seen, cut, Flag() + cut.rest, all, Split(all), bits, Split(bits))
  {
    SplitMore(seen, chunk);
    BehindFlag(cut.rest, chunk);
    CallAfterFlag(decode, seen, cut, Flag() + cut.rest, all, bits, Split(cut.rest + chunk));
  }

  lemma BehindFlag(rest: seq<bool>, chunk: seq<bool>)
    ensures Split(Flag() + rest + chunk) == Join([[]], Split(rest + chunk))
  {
    assert Flag() + rest + chunk == Flag() + (rest + chunk);
    FlagFirst(rest + chunk);
  }

  lemma StepBeforeFlag(decode: Decoder, seen: seq<bool>, cut: Cut, rest: seq<bool>, chunk: seq<bool>,
                       all: seq<bool>, bits: seq<bool>)
    requires cut == Split(seen) && cut.pieces == [] && Covers(seen, cut, rest) && !Stale(bits)
    requires bits == rest + chunk && all == seen + chunk
    ensures Good(decode, seen, cut, rest, all, Split(all), bits, Split(bits))
  {
    var k := |seen| - |rest|;
    SplitTail(seen, k, chunk, all, bits);
    CallBeforeFlag(decode, seen, cut, rest, all, Split(all), bits, Split(bits), k);
  }

  lemma NoFlagYet(bits: seq<bool>)
    requires Split(bits).pieces == []
    ensures Seek(bits) == None
  {}

  lemma SplitTail(seen: seq<bool>, k: nat, chunk: seq<bool>, all: seq<bool>, bits: seq<bool>)
    requires Split(seen).pieces == [] && k <= |seen| && (k == 0 || |seen| - k >= 7)
    requires bits == seen[k..] + chunk && all == seen + chunk
    ensures bits == all[k..]
    ensures Split(all).pieces == [] <==> Split(bits).pieces == []
    ensures Split(all).pieces != [] ==>
              Split(all).rest == Split(bits).rest && Split(all).pieces[1..] == Split(bits).pieces[1..]
  {
    assert all[k..] == bits;
    SeekShorter(seen, k, chunk, all, bits);
    SplitLater(all, bits, k);
  }

  lemma SeekShorter(seen: seq<bool>, k: nat, chunk: seq<bool>, all: seq<bool>, bits: seq<bool>)
    requires Split(seen).pieces == [] && k <= |seen| && (k == 0 || |seen| - k >= 7)
    requires bits == seen[k..] + chunk && all == seen + chunk
    ensures Seek(all) == if Seek(bits).None? then None else Some(Seek(bits).value + k)
  {
    NoFlagYet(seen);
    if k == 0 {
      assert seen[0..] == seen;
    } else {
      SeekTail(seen, k, chunk);
    }
  }

  lemma Step(decode: Decoder, seen: seq<bool>, rest: seq<bool>, chunk: seq<bool>, all: seq<bool>, bits: seq<bool>)
    requires Stands(seen, rest) && !Stale(bits)
    requires bits == rest + chunk && all == seen + chunk
    ensures Good(decode, seen, Split(seen), rest, all, Split(all), bits, Split(bits))
  {
    if Split(seen).pieces == [] {
      StepBeforeFlag(decode, seen, Split(seen), rest, chunk, all, bits);
    } else {
      StepAfterFlag(decode, seen, Split(seen), chunk, all, bits);
    }
  }

  /** One call keeps the relation and adds what `whole` finds more. */
  predicate CallKeeps(
      extract: Extractor, whole: Extractor, bad: seq<bool> -> bool, stands: (seq<bool>, seq<bool>) -> bool,
      seen: seq<bool>, rest: seq<bool>, chunk: seq<bool>)
  {
    stands(seen, rest) && !bad(rest + chunk) ==>
      stands(seen + chunk, extract(rest + chunk).rest) &&
      whole(seen + chunk).payloads == whole(seen).payloads + extract(rest + chunk).payloads
  }

  /** A relation between the stream so far and the remainder that every call keeps, as long as its
      bits are not `bad`, is kept by the whole feed. */
  lemma {:induction false} Simulation(
      extract: Extractor, whole: Extractor, bad: seq<bool> -> bool, stands: (seq<bool>, seq<bool>) -> bool,
      seen: seq<bool>, rest: seq<bool>, chunks: seq<seq<bool>>)
    requires forall s, r, c :: CallKeeps(extract, whole, bad, stands, s, r, c)
    requires stands(seen, rest) && Never(bad, extract, rest, chunks)
    ensures stands(seen + Flat(chunks), Feed(extract, rest, chunks).rest)
    ensures whole(seen + Flat(chunks)).payloads ==
            whole(seen).payloads + Feed(extract, rest, chunks).payloads
    decreases |chunks|
  {
    if chunks == [] {
      assert seen + [] == seen;
    } else {
      var now := extract(rest + chunks[0]);
      assert CallKeeps(extract, whole, bad, stands, seen, rest, chunks[0]);
      Simulation(extract, whole, bad, stands, seen + chunks[0], now.rest, chunks[1..]);
      assert seen + Flat(chunks) == seen + chunks[0] + Flat(chunks[1..]);
    }
  }

  /** What `Simulation` asks of one call. */
  lemma StepFinds(decode: Decoder, seen: seq<bool>, rest: seq<bool>, chunk: seq<bool>)
    requires Stands(seen, rest) && !Stale(rest + chunk)
    ensures Stands(seen + chunk, ExtractWith(decode, rest + chunk).rest)
    ensures Whole(decode, seen + chunk).payloads ==
            Whole(decode, seen).payloads + ExtractWith(decode, rest + chunk).payloads
    ensures rest == Whole(decode, seen).rest && !Noise(rest + chunk) ==>
              ExtractWith(decode, rest + chunk).rest == Whole(decode, seen + chunk).rest
  {
    Step(decode, seen, rest, chunk, seen + chunk, rest + chunk);
  }

  lemma ExtractIsWhole(decode: Decoder, bits: seq<bool>)
    ensures ExtractWith(decode, bits).payloads == Whole(decode, bits).payloads
    ensures !Trims(bits) ==> ExtractWith(decode, bits).rest == Whole(decode, bits).rest
  {
    assert Gather(decode, []) == [];
  }

  /** Feeding a stream in any chunks finds the payloads that one call on all of it finds, in the same
      order, however much noise came first, unless a call gives a frame up. */
  lemma StreamingPayloads(decode: Decoder, extract: Extractor, chunks: seq<seq<bool>>)
    requires forall bits :: extract(bits) == ExtractWith(decode, bits)
    requires Never(Stale, extract, [], chunks)
    ensures Feed(extract, [], chunks).payloads == extract(Flat(chunks)).payloads
  {
    var whole: Extractor := bits => Whole(decode, bits);
    forall s, r, c ensures CallKeeps(extract, whole, Stale, Stands, s, r, c) {
      if Stands(s, r) && !Stale(r + c) { StepFinds(decode, s, r, c); }
    }
    Simulation(extract, whole, Stale, Stands, [], [], chunks);
    assert [] + Flat(chunks) == Flat(chunks);
    ExtractIsWhole(decode, Flat(chunks));
  }

  /** If no call drops bits, the bits left over at the end are the same, too. */
  lemma StreamingAll(decode: Decoder, extract: Extractor, chunks: seq<seq<bool>>)
    requires forall bits :: extract(bits) == ExtractWith(decode, bits)
    requires Never(Trims, extract, [], chunks)
    ensures Feed(extract, [], chunks) == Whole(decode, Flat(chunks))
    ensures !Trims(Flat(chunks)) ==> Feed(extract, [], chunks) == extract(Flat(chunks))
  {
    StreamingWhole(decode, extract, chunks);
    ExtractIsWhole(decode, Flat(chunks));
  }

  lemma StreamingWhole(decode: Decoder, extract: Extractor, chunks: seq<seq<bool>>)
    requires forall bits :: extract(bits) == ExtractWith(decode, bits)
    requires Never(Trims, extract, [], chunks)
    ensures Feed(extract, [], chunks) == Whole(decode, Flat(chunks))
  {
    var whole: Extractor := bits => Whole(decode, bits);
    var same := (s, r) => Stands(s, r) && r == Whole(decode, s).rest;
    forall s, r, c ensures CallKeeps(extract, whole, Trims, same, s, r, c) {
      if same(s, r) && !Trims(r + c) { StepFinds(decode, s, r, c); }
    }
    Simulation(extract, whole, Trims, same, [], [], chunks);
    assert [] + Flat(chunks) == Flat(chunks);
    assert whole([]).payloads == [];
  }
}
