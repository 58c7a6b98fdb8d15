/** KISS read from a serial line in any pieces. What a call leaves in the buffer is of no use to the next
    one, so every read is decoded by itself: exactly the frames that lie within one read come out. */
module KissReads {
  import opened Common
  import opened Kiss

  // ---- nothing is carried over ------------------------------------------------------------------------

  lemma {:induction false} NoFend(buf: Bytes)
    requires FEND !in buf
    ensures Until(buf) == |buf|
    decreases |buf|
  {
    if buf != [] { NoFend(buf[1..]); }
  }

  lemma SplitWaits(buf: Bytes, body: Bytes)
    requires Until(buf) < |buf| && body == buf[Until(buf)..][Leading(buf[Until(buf)..])..] && Until(body) == |body|
    ensures Split(buf) == Cut([], body)
  {}

  /** `rest` is the end of `buf` and holds no FEND. */
  predicate EndOf(rest: Bytes, buf: Bytes) {
    FEND !in rest && |rest| <= |buf| && rest == buf[|buf| - |rest|..]
  }

  lemma {:induction false} UntilEnd(buf: Bytes)
    requires Until(buf) == |buf|
    ensures EndOf(buf, buf)
  {
    assert buf[..|buf|] == buf;
  }

  lemma EndOfEnd(rest: Bytes, body: Bytes, buf: Bytes, k: nat)
    requires k <= |buf| && body == buf[k..] && EndOf(rest, body)
    ensures EndOf(rest, buf)
  {}

  lemma FromFend(buf: Bytes, at: Bytes, k: nat, j: nat, body: Bytes)
    requires k <= |buf| && at == buf[k..] && j <= |at| && body == at[j..]
    ensures body == buf[k + j..]
  {}

  /** What stays in the buffer is the end of it, and holds no FEND. */
  lemma {:induction false} RestHasNoFend(buf: Bytes)
    ensures EndOf(Split(buf).rest, buf)
    decreases |buf|, 1
  {
    var start := Until(buf);
    if start == |buf| {
      UntilEnd(buf);
    } else {
      var at := buf[start..];
      var body := at[Leading(at)..];
      FromFend(buf, at, start, Leading(at), body);
      BodyRest(buf, body, start + Leading(at));
    }
  }

  lemma {:induction false} BodyRest(buf: Bytes, body: Bytes, k: nat)
    requires Until(buf) < |buf| && k == Until(buf) + Leading(buf[Until(buf)..])
    requires k <= |buf| && body == buf[k..] == buf[Until(buf)..][Leading(buf[Until(buf)..])..]
    ensures EndOf(Split(buf).rest, buf)
    decreases |buf|, 0
  {
    var end := Until(body);
    if end == |body| {
      SplitWaits(buf, body);
      UntilEnd(body);
      EndOfEnd(body, body, buf, k);
    } else {
      var later := body[end + 1..];
      SplitBody(buf, body, end, body[..end], later);
      RestHasNoFend(later);
      EndOfEnd(Split(later).rest, later, body, end + 1);
      EndOfEnd(Split(later).rest, body, buf, k);
    }
  }

  lemma {:induction false} UntilNoise(noise: Bytes, buf: Bytes)
    requires FEND !in noise
    ensures Until(noise + buf) == |noise| + Until(buf)
    decreases |noise|
  {
    if noise == [] {
      assert noise + buf == buf;
    } else {
      assert (noise + buf)[1..] == noise[1..] + buf;
      UntilNoise(noise[1..], buf);
    }
  }

  /** Octets without a FEND in front of a buffer change nothing of what is cut off. */
  lemma NoiseIgnored(noise: Bytes, buf: Bytes)
    requires FEND !in noise
    ensures Split(noise + buf).raws == Split(buf).raws
  {
    var start := Until(buf);
    UntilNoise(noise, buf);
    if start < |buf| { SameFromFend(noise + buf, buf, buf[start..]); }
  }

  /** The octets from the first FEND on decide. */
  lemma SameFromFend(all: Bytes, buf: Bytes, at: Bytes)
    requires Until(all) < |all| && Until(buf) < |buf| && all[Until(all)..] == buf[Until(buf)..] == at
    ensures Split(all) == Split(buf)
  {
    var body := at[Leading(at)..];
    var end := Until(body);
    if end == |body| {
      SplitWaits(all, body);
      SplitWaits(buf, body);
    } else {
      SplitBody(all, body, end, body[..end], body[end + 1..]);
      SplitBody(buf, body, end, body[..end], body[end + 1..]);
    }
  }

  /** All stretches cut off by reads that know nothing of each other. */
  function Each(chunks: seq<Bytes>): seq<Bytes> {
    if chunks == [] then [] else Split(chunks[0]).raws + Each(chunks[1..])
  }

  /** For any octets in any reads: every read is decoded as if it were the first. */
  lemma {:induction false} ReadsAreIndependent(buf: Bytes, chunks: seq<Bytes>)
    requires FEND !in buf
    ensures Feed(buf, chunks).frames == ReadAll(Each(chunks))
    decreases |chunks|
  {
    if chunks != [] {
      NoiseIgnored(buf, chunks[0]);
      RestHasNoFend(buf + chunks[0]);
      ReadsAreIndependent(Split(buf + chunks[0]).rest, chunks[1..]);
      ReadAllConcat(Split(chunks[0]).raws, Each(chunks[1..]));
    }
  }

  /** Nothing, or a FEND at the end. */
  predicate Closed(octets: Bytes) { octets == [] || octets[|octets| - 1] == FEND }

  lemma ClosedAlone(octets: Bytes)
    requires Closed(octets) && FEND !in octets
    ensures octets == []
  {}

  lemma ClosedRest(now: Bytes, rest: Bytes, later: Bytes)
    requires Closed(now + later) && |rest| <= |now| && rest == now[|now| - |rest|..]
    ensures Closed(rest + later)
  {
    if later != [] {
      assert (rest + later)[|rest + later| - 1] == (now + later)[|now + later| - 1];
    } else if rest != [] {
      assert now + later == now && rest + later == rest;
      assert rest[|rest| - 1] == now[|now| - 1];
    }
  }

  /** If the octets end with a FEND, the buffer is empty at the end. */
  lemma {:induction false} NothingLeft(buf: Bytes, chunks: seq<Bytes>)
    requires FEND !in buf && Closed(buf + Flat(chunks))
    ensures Feed(buf, chunks).rest == []
    decreases |chunks|
  {
    if chunks == [] {
      assert buf + [] == buf;
      ClosedAlone(buf);
    } else {
      var now := buf + chunks[0];
      RestHasNoFend(now);
      Chain(buf, chunks[0], Flat(chunks[1..]));
      ClosedRest(now, Split(now).rest, Flat(chunks[1..]));
      NothingLeft(Split(now).rest, chunks[1..]);
      FeedRest(buf, chunks, Split(now).rest);
    }
  }

  lemma FeedRest(buf: Bytes, chunks: seq<Bytes>, rest: Bytes)
    requires chunks != [] && rest == Split(buf + chunks[0]).rest
    ensures Feed(buf, chunks).rest == Feed(rest, chunks[1..]).rest
  {}

  // ---- stretches on the line ---------------------------------------------------------------------------

  /** What may stand between two FENDs and be read. */
  predicate Solid(raw: Bytes) { raw != [] && FEND !in raw }

  predicate AllSolid(raws: seq<Bytes>) { forall i :: 0 <= i < |raws| ==> Solid(raws[i]) }

  function Framed(raw: Bytes): Bytes { Fends(1) + raw + Fends(1) }

  /** Stretches with a FEND at either end, and any number of extra FENDs before, between and behind them. */
  function Line(raws: seq<Bytes>, gaps: seq<nat>): Bytes
    requires |gaps| == |raws| + 1
    decreases |raws|
  {
    if raws == [] then Fends(gaps[0]) else Fends(gaps[0]) + (Framed(raws[0]) + Line(raws[1..], gaps[1..]))
  }

  /** A read ends inside the octets from `start` to `end`. */
  ghost predicate Hit(ends: set<nat>, start: nat, end: nat) { exists c :: c in ends && start < c < end }

  /** The items of a line from position `from` in which no read ends; item i takes `lens[i]` octets. */
  ghost function Uncut<T>(items: seq<T>, lens: seq<nat>, gaps: seq<nat>, from: nat, ends: set<nat>): seq<T>
    requires |lens| == |items| && |gaps| == |items| + 1
    decreases |items|
  {
    if items == [] then []
    else
      var start := from + gaps[0];
      var end := start + lens[0];
      (if Hit(ends, start, end) then [] else [items[0]]) + Uncut(items[1..], lens[1..], gaps[1..], end, ends)
  }

  /** Where the reads end. */
  function Ends(from: nat, chunks: seq<Bytes>): set<nat>
    decreases |chunks|
  {
    if chunks == [] then {} else {from + |chunks[0]|} + Ends(from + |chunks[0]|, chunks[1..])
  }

  lemma {:induction false} EndsLater(from: nat, chunks: seq<Bytes>)
    ensures forall c :: c in Ends(from, chunks) ==> c >= from
    decreases |chunks|
  {
    if chunks != [] { EndsLater(from + |chunks[0]|, chunks[1..]); }
  }

  lemma HitMore(ends: set<nat>, start: nat, end: nat, c: nat)
    requires c <= start
    ensures Hit(ends + {c}, start, end) <==> Hit(ends, start, end)
  {
    if Hit(ends, start, end) {
      var x :| x in ends && start < x < end;
      assert x in ends + {c};
    }
  }

  /** A read that ends before the line begins harms nothing. */
  lemma {:induction false} EarlyEnd<T>(items: seq<T>, lens: seq<nat>, gaps: seq<nat>, from: nat, ends: set<nat>, c: nat)
    requires |lens| == |items| && |gaps| == |items| + 1 && c <= from
    ensures Uncut(items, lens, gaps, from, ends + {c}) == Uncut(items, lens, gaps, from, ends)
    decreases |items|
  {
    if items != [] {
      HitMore(ends, from + gaps[0], from + gaps[0] + lens[0], c);
      EarlyEnd(items[1..], lens[1..], gaps[1..], from + gaps[0] + lens[0], ends, c);
    }
  }

  /** Only the place of the first item matters, not how the way to it is divided. */
  lemma SameStart<T>(items: seq<T>, lens: seq<nat>, gaps: seq<nat>, from: nat, gap: nat, from2: nat, ends: set<nat>)
    requires |lens| == |items| && |gaps| == |items| + 1 && from + gaps[0] == from2 + gap
    ensures Uncut(items, lens, gaps[0 := gap], from2, ends) == Uncut(items, lens, gaps, from, ends)
  {
    assert gaps[0 := gap][1..] == gaps[1..];
  }

  function Lens(raws: seq<Bytes>): (r: seq<nat>)
    ensures |r| == |raws|
  {
    if raws == [] then [] else [|raws[0]| + 2] + Lens(raws[1..])
  }

  lemma LensTail(raws: seq<Bytes>)
    requires raws != []
    ensures Lens(raws)[0] == |raws[0]| + 2 && Lens(raws)[1..] == Lens(raws[1..])
  {}

  // ---- one read ---------------------------------------------------------------------------------------

  /** What is still to come: octets of no use, then a line. */
  datatype State = State(noise: Bytes, raws: seq<Bytes>, gaps: seq<nat>)

  ghost predicate Fine(t: State) { |t.gaps| == |t.raws| + 1 && AllSolid(t.raws) && FEND !in t.noise }

  function Octets(t: State): Bytes
    requires |t.gaps| == |t.raws| + 1
  {
    t.noise + Line(t.raws, t.gaps)
  }

  /** The stretches of it that will be read. */
  ghost function ToRead(t: State, from: nat, ends: set<nat>): seq<Bytes>
    requires |t.gaps| == |t.raws| + 1
  {
    Uncut(t.raws, Lens(t.raws), t.gaps, from + |t.noise|, ends)
  }

  /** A read of `n` octets that cuts off `got` takes `t` to `u`. */
  ghost predicate Took(t: State, n: nat, got: seq<Bytes>, u: State, from: nat, ends: set<nat>)
    requires |t.gaps| == |t.raws| + 1
  {
    Fine(u) && ToRead(t, from, ends + {from + n}) == got + ToRead(u, from + n, ends)
  }

  lemma SameFront(a: Bytes, b: Bytes, x: Bytes, y: Bytes)
    requires a + b == x + y && |a| == |x|
    ensures a == x && b == y
  {
    assert a == (a + b)[..|a|] && x == (x + y)[..|x|];
    assert b == (a + b)[|a|..] && y == (x + y)[|x|..];
  }

  /** The read ends before the first FEND. */
  lemma TookNoise(t: State, n: nat, u: State, from: nat, ends: set<nat>)
    requires Fine(t) && n <= |t.noise| && u == t.(noise := t.noise[n..])
    ensures Took(t, n, [], u, from, ends)
  {
    EarlyEnd(t.raws, Lens(t.raws), t.gaps, from + |t.noise|, ends, from + n);
  }

  lemma ReadNoise(t: State, x: Bytes, y: Bytes, u: State)
    requires Fine(t) && Octets(t) == x + y && |x| <= |t.noise| && u == t.(noise := t.noise[|x|..])
    ensures Split(x).raws == [] && Octets(u) == y
  {
    var line := Line(t.raws, t.gaps);
    Chain(t.noise[..|x|], u.noise, line);
    assert t.noise == t.noise[..|x|] + u.noise;
    SameFront(t.noise[..|x|], u.noise + line, x, y);
    NoFend(x);
  }

  lemma LineAfter(raws: seq<Bytes>, gaps: seq<nat>, j: nat)
    requires |gaps| == |raws| + 1 && j <= gaps[0]
    ensures Line(raws, gaps) == Fends(j) + Line(raws, gaps[0 := gaps[0] - j])
  {
    var less := gaps[0 := gaps[0] - j];
    assert Fends(gaps[0]) == Fends(j) + Fends(less[0]);
    assert less[1..] == gaps[1..];
    if raws != [] {
      Chain(Fends(j), Fends(less[0]), Framed(raws[0]) + Line(raws[1..], gaps[1..]));
    }
  }

  lemma GapSplit(noise: Bytes, j: nat)
    requires FEND !in noise
    ensures Split(noise + Fends(j)).raws == []
  {
    NoiseIgnored(noise, Fends(j));
    OnlyFends(j);
  }

  /** The read ends among the extra FENDs. */
  lemma TookGap(t: State, n: nat, u: State, from: nat, ends: set<nat>)
    requires Fine(t) && |t.noise| < n <= |t.noise| + t.gaps[0]
    requires u == State([], t.raws, t.gaps[0 := |t.noise| + t.gaps[0] - n])
    ensures Took(t, n, [], u, from, ends)
  {
    SameStart(t.raws, Lens(t.raws), t.gaps, from + |t.noise|, |t.noise| + t.gaps[0] - n, from + n, ends + {from + n});
    EarlyEnd(t.raws, Lens(t.raws), u.gaps, from + n, ends, from + n);
  }

  lemma ReadGap(t: State, x: Bytes, y: Bytes, u: State)
    requires Fine(t) && Octets(t) == x + y && |t.noise| < |x| <= |t.noise| + t.gaps[0]
    requires u == State([], t.raws, t.gaps[0 := |t.noise| + t.gaps[0] - |x|])
    ensures Split(x).raws == [] && Octets(u) == y
  {
    var j := |x| - |t.noise|;
    var line := Line(t.raws, u.gaps);
    LineAfter(t.raws, t.gaps, j);
    GapFront(t.noise, Fends(j), line, x, y);
    GapSplit(t.noise, j);
    assert [] + line == line;
  }

  lemma GapFront(noise: Bytes, fends: Bytes, line: Bytes, x: Bytes, y: Bytes)
    requires noise + (fends + line) == x + y && |x| == |noise| + |fends|
    ensures x == noise + fends && y == line
  {
    Chain(noise, fends, line);
    SameFront(noise + fends, line, x, y);
  }

  lemma HeadKept(n: nat, head: Bytes)
    requires n > 0 && FEND !in head
    ensures Split(Fends(n) + head).raws == []
  {
    var buf := Fends(n) + head;
    if head == [] {
      assert buf == Fends(n);
      OnlyFends(n);
    } else {
      assert buf[0] == FEND && buf[0..] == buf;
      LeadingFends(n, head);
      NoFend(head);
    }
  }

  lemma GapHead(g: nat, head: Bytes)
    ensures Fends(g) + (Fends(1) + head) == Fends(g + 1) + head
  {
    assert Fends(g) + Fends(1) == Fends(g + 1);
    Chain(Fends(g), Fends(1), head);
  }

  lemma PartSplit(noise: Bytes, g: nat, head: Bytes)
    requires FEND !in noise && FEND !in head
    ensures Split(noise + (Fends(g) + (Fends(1) + head))).raws == []
  {
    GapHead(g, head);
    NoiseIgnored(noise, Fends(g + 1) + head);
    HeadKept(g + 1, head);
  }

  /** The read ends inside the first stretch: it is lost. */
  lemma TookPart(t: State, n: nat, q: nat, u: State, from: nat, ends: set<nat>)
    requires Fine(t) && t.raws != [] && 0 < q < |t.raws[0]| + 2 && n == |t.noise| + t.gaps[0] + q
    requires u == State(t.raws[0][q - 1..], t.raws[1..], t.gaps[1..][0 := t.gaps[1] + 1])
    ensures Took(t, n, [], u, from, ends)
  {
    var lens := Lens(t.raws);
    LensTail(t.raws);
    var start := from + |t.noise| + t.gaps[0];
    var end := start + lens[0];
    assert from + n in ends + {from + n};
    assert Hit(ends + {from + n}, start, end);
    EarlyEnd(t.raws[1..], lens[1..], t.gaps[1..], end, ends, from + n);
    SameStart(t.raws[1..], lens[1..], t.gaps[1..], end, t.gaps[1] + 1, end - 1, ends);
  }

  lemma FendFirst(raws: seq<Bytes>, gaps: seq<nat>)
    requires |gaps| == |raws| + 1
    ensures Fends(1) + Line(raws, gaps) == Line(raws, gaps[0 := gaps[0] + 1])
  {
    var more := gaps[0 := gaps[0] + 1];
    LineAfter(raws, more, 1);
    assert more[0 := more[0] - 1] == gaps;
  }

  lemma PartFront(noise: Bytes, fends: Bytes, head: Bytes, tail: Bytes, line: Bytes, x: Bytes, y: Bytes)
    requires noise + (fends + ((Fends(1) + (head + tail) + Fends(1)) + line)) == x + y
    requires |x| == |noise| + |fends| + 1 + |head|
    ensures x == noise + (fends + (Fends(1) + head)) && y == tail + (Fends(1) + line)
  {
    var front := noise + (fends + (Fends(1) + head));
    assert noise + (fends + ((Fends(1) + (head + tail) + Fends(1)) + line)) == front + (tail + (Fends(1) + line));
    SameFront(front, tail + (Fends(1) + line), x, y);
  }

  lemma ReadPart(t: State, x: Bytes, y: Bytes, q: nat, u: State)
    requires Fine(t) && t.raws != [] && 0 < q < |t.raws[0]| + 2 && |x| == |t.noise| + t.gaps[0] + q
    requires Octets(t) == x + y
    requires u == State(t.raws[0][q - 1..], t.raws[1..], t.gaps[1..][0 := t.gaps[1] + 1])
    ensures Split(x).raws == [] && Octets(u) == y
  {
    var head := t.raws[0][..q - 1];
    assert Solid(t.raws[0]) && t.raws[0] == head + u.noise;
    PartFront(t.noise, Fends(t.gaps[0]), head, u.noise, Line(t.raws[1..], t.gaps[1..]), x, y);
    PartSplit(t.noise, t.gaps[0], head);
    FendFirst(t.raws[1..], t.gaps[1..]);
  }

  lemma WholeFront(noise: Bytes, fends: Bytes, framed: Bytes, line: Bytes, x: Bytes, y: Bytes, x2: Bytes)
    requires noise + (fends + (framed + line)) == x + y && |x| >= |noise| + |fends| + |framed|
    requires x2 == x[|noise| + |fends| + |framed|..]
    ensures x == noise + (fends + (framed + x2)) && x2 + y == line
  {
    var front := noise + (fends + framed);
    assert front + line == noise + (fends + (framed + line));
    assert x == x[..|front|] + x2;
    Chain(x[..|front|], x2, y);
    SameFront(front, line, x[..|front|], x2 + y);
    assert front + x2 == noise + (fends + (framed + x2));
  }

  lemma FirstCut(noise: Bytes, g: nat, raw: Bytes, x: Bytes)
    requires FEND !in noise && Solid(raw)
    ensures Split(noise + (Fends(g) + (Framed(raw) + x))).raws == [raw] + Split(x).raws
  {
    NoiseIgnored(noise, Fends(g) + (Framed(raw) + x));
    FramedStretch(g, raw, x);
    SplitStretch(g + 1, raw, x);
  }

  lemma FramedStretch(g: nat, raw: Bytes, x: Bytes)
    ensures Fends(g) + (Framed(raw) + x) == Fends(g + 1) + (raw + [FEND] + x)
  {
    assert Fends(g) + Fends(1) == Fends(g + 1) && Fends(1) == [FEND];
    assert Framed(raw) + x == Fends(1) + (raw + [FEND] + x);
    Chain(Fends(g), Fends(1), raw + [FEND] + x);
  }

  /** The read goes beyond the first stretch. */
  lemma TookFirst(t: State, t2: State, k: nat, m: nat, n: nat, got: seq<Bytes>, u: State, from: nat, ends: set<nat>)
    requires Fine(t) && t.raws != [] && k == |t.noise| + t.gaps[0] + |t.raws[0]| + 2 && n == k + m
    requires t2 == State([], t.raws[1..], t.gaps[1..])
    requires forall c :: c in ends ==> c >= from + n
    requires Took(t2, m, got, u, from + k, ends)
    ensures Took(t, n, [t.raws[0]] + got, u, from, ends)
  {
    var start, all := from + |t.noise| + t.gaps[0], ends + {from + n};
    LensTail(t.raws);
    assert !Hit(all, start, from + k);
    Chain([t.raws[0]], got, ToRead(u, from + n, ends));
  }

  /** What is to come after `n` octets more, and the stretches among these. */
  datatype Step = Step(state: State, got: seq<Bytes>)

  ghost function After(t: State, n: nat): (r: Step)
    requires |t.gaps| == |t.raws| + 1 && n <= |Octets(t)|
    ensures |r.state.gaps| == |r.state.raws| + 1
    decreases |t.raws|
  {
    var gapEnd := |t.noise| + t.gaps[0];
    if n <= |t.noise| then Step(t.(noise := t.noise[n..]), [])
    else if n <= gapEnd then Step(State([], t.raws, t.gaps[0 := gapEnd - n]), [])
    else
      var rest := State([], t.raws[1..], t.gaps[1..]);
      if n < gapEnd + |t.raws[0]| + 2 then
        Step(State(t.raws[0][n - gapEnd - 1..], t.raws[1..], t.gaps[1..][0 := t.gaps[1] + 1]), [])
      else
        var later := After(rest, n - (gapEnd + |t.raws[0]| + 2));
        Step(later.state, [t.raws[0]] + later.got)
  }

  lemma {:induction false} TookAfter(t: State, n: nat, from: nat, ends: set<nat>)
    requires Fine(t) && n <= |Octets(t)|
    requires forall c :: c in ends ==> c >= from + n
    ensures Took(t, n, After(t, n).got, After(t, n).state, from, ends)
    decreases |t.raws|
  {
    var gapEnd := |t.noise| + t.gaps[0];
    if n <= |t.noise| {
      TookNoise(t, n, After(t, n).state, from, ends);
    } else if n <= gapEnd {
      TookGap(t, n, After(t, n).state, from, ends);
    } else if n < gapEnd + |t.raws[0]| + 2 {
      TookPart(t, n, n - gapEnd, After(t, n).state, from, ends);
    } else {
      var k := gapEnd + |t.raws[0]| + 2;
      var t2 := State([], t.raws[1..], t.gaps[1..]);
      TookAfter(t2, n - k, from + k, ends);
      TookFirst(t, t2, k, n - k, n, After(t2, n - k).got, After(t2, n - k).state, from, ends);
    }
  }

  lemma {:induction false} ReadAfter(t: State, x: Bytes, y: Bytes)
    requires Fine(t) && Octets(t) == x + y
    ensures |x| <= |Octets(t)| && Split(x).raws == After(t, |x|).got && Octets(After(t, |x|).state) == y
    decreases |t.raws|
  {
    var n, gapEnd := |x|, |t.noise| + t.gaps[0];
    if n <= |t.noise| {
      ReadNoise(t, x, y, After(t, n).state);
    } else if n <= gapEnd {
      ReadGap(t, x, y, After(t, n).state);
    } else if n < gapEnd + |t.raws[0]| + 2 {
      ReadPart(t, x, y, n - gapEnd, After(t, n).state);
    } else {
      var x2 := x[gapEnd + |t.raws[0]| + 2..];
      var t2 := State([], t.raws[1..], t.gaps[1..]);
      FrontOctets(t, t2, x, y, x2);
      ReadAfter(t2, x2, y);
      FrontSplit(t, x, x2);
      AfterWhole(t, t2, n, |x2|);
    }
  }

  lemma AfterWhole(t: State, t2: State, n: nat, m: nat)
    requires |t.gaps| == |t.raws| + 1 && n <= |Octets(t)| && t.raws != [] && t2 == State([], t.raws[1..], t.gaps[1..])
    requires n == |t.noise| + t.gaps[0] + |t.raws[0]| + 2 + m
    ensures m <= |Octets(t2)| && After(t, n) == Step(After(t2, m).state, [t.raws[0]] + After(t2, m).got)
  {}

  lemma FrontOctets(t: State, t2: State, x: Bytes, y: Bytes, x2: Bytes)
    requires Fine(t) && Octets(t) == x + y && t.raws != []
    requires |x| >= |t.noise| + t.gaps[0] + |t.raws[0]| + 2 && x2 == x[|t.noise| + t.gaps[0] + |t.raws[0]| + 2..]
    requires t2 == State([], t.raws[1..], t.gaps[1..])
    ensures Fine(t2) && Octets(t2) == x2 + y
    ensures x == t.noise + (Fends(t.gaps[0]) + (Framed(t.raws[0]) + x2))
  {
    var line := Line(t2.raws, t2.gaps);
    WholeFront(t.noise, Fends(t.gaps[0]), Framed(t.raws[0]), line, x, y, x2);
    assert [] + line == line;
  }

  lemma FrontSplit(t: State, x: Bytes, x2: Bytes)
    requires Fine(t) && t.raws != [] && x == t.noise + (Fends(t.gaps[0]) + (Framed(t.raws[0]) + x2))
    ensures Split(x).raws == [t.raws[0]] + Split(x2).raws
  {
    assert Solid(t.raws[0]);
    FirstCut(t.noise, t.gaps[0], t.raws[0], x2);
  }

  // ---- all reads ----------------------------------------------------------------------------------------

  lemma {:induction false} EachRead(t: State, chunks: seq<Bytes>, from: nat)
    requires Fine(t) && Octets(t) == Flat(chunks)
    ensures Each(chunks) == ToRead(t, from, Ends(from, chunks))
    decreases |chunks|
  {
    if chunks == [] {
      assert Line(t.raws, t.gaps) == [];
    } else {
      var x, y := chunks[0], Flat(chunks[1..]);
      var later := Ends(from + |x|, chunks[1..]);
      EndsLater(from + |x|, chunks[1..]);
      ReadAfter(t, x, y);
      TookAfter(t, |x|, from, later);
      EachRead(After(t, |x|).state, chunks[1..], from + |x|);
      assert Ends(from, chunks) == later + {from + |x|};
    }
  }

  lemma {:induction false} LineClosed(raws: seq<Bytes>, gaps: seq<nat>)
    requires |gaps| == |raws| + 1
    ensures Closed(Line(raws, gaps))
    decreases |raws|
  {
    if raws != [] { LineClosed(raws[1..], gaps[1..]); }
  }

  // ---- frames ---------------------------------------------------------------------------------------------

  predicate AllPlain(frames: seq<Frame>) { forall i :: 0 <= i < |frames| ==> Plain(frames[i]) }

  /** Frames as encoded, with any number of extra FENDs before, between and behind them. */
  function OnLine(frames: seq<Frame>, gaps: seq<nat>): Bytes
    requires |gaps| == |frames| + 1
    decreases |frames|
  {
    if frames == [] then Fends(gaps[0]) else Fends(gaps[0]) + (Encode(frames[0]) + OnLine(frames[1..], gaps[1..]))
  }

  /** How many octets each takes. */
  function Sizes(frames: seq<Frame>): (r: seq<nat>)
    ensures |r| == |frames|
  {
    if frames == [] then [] else [|Encode(frames[0])|] + Sizes(frames[1..])
  }

  lemma {:induction false} RawsOnLine(frames: seq<Frame>, gaps: seq<nat>)
    requires |gaps| == |frames| + 1 && AllPlain(frames)
    ensures |Raws(frames)| == |frames| && AllSolid(Raws(frames))
    ensures Line(Raws(frames), gaps) == OnLine(frames, gaps) && Lens(Raws(frames)) == Sizes(frames)
    decreases |frames|
  {
    if frames != [] {
      RawsOnLine(frames[1..], gaps[1..]);
      RawRead(frames[0]);
      assert Encode(frames[0]) == Framed(Raw(frames[0]));
      assert Raws(frames)[1..] == Raws(frames[1..]);
    }
  }

  /** Leaving items out commutes with taking frames for their stretches. */
  lemma {:induction false} RawsUncut(frames: seq<Frame>, raws: seq<Bytes>, lens: seq<nat>, gaps: seq<nat>,
                                     from: nat, ends: set<nat>)
    requires |lens| == |frames| && |gaps| == |frames| + 1 && raws == Raws(frames) && |raws| == |frames|
    ensures Raws(Uncut(frames, lens, gaps, from, ends)) == Uncut(raws, lens, gaps, from, ends)
    decreases |frames|
  {
    if frames != [] {
      var end := from + gaps[0] + lens[0];
      assert raws[1..] == Raws(frames[1..]) && raws[0] == Raw(frames[0]);
      RawsUncut(frames[1..], raws[1..], lens[1..], gaps[1..], end, ends);
      var later := Uncut(frames[1..], lens[1..], gaps[1..], end, ends);
      RawsFirst(frames[0], later);
      assert [] + later == later && [] + Raws(later) == Raws(later);
    }
  }

  lemma {:induction false} UncutPlain(frames: seq<Frame>, lens: seq<nat>, gaps: seq<nat>, from: nat, ends: set<nat>)
    requires |lens| == |frames| && |gaps| == |frames| + 1 && AllPlain(frames)
    ensures AllPlain(Uncut(frames, lens, gaps, from, ends))
    decreases |frames|
  {
    if frames != [] { UncutPlain(frames[1..], lens[1..], gaps[1..], from + gaps[0] + lens[0], ends); }
  }

  /** Frames with any extra FENDs, in any reads: exactly the frames in which no read ends come out, in
      order, and the buffer is empty at the end. */
  lemma AnyReads(frames: seq<Frame>, gaps: seq<nat>, chunks: seq<Bytes>)
    requires |gaps| == |frames| + 1 && AllPlain(frames) && Flat(chunks) == OnLine(frames, gaps)
    ensures Feed([], chunks) == Decoded(Uncut(frames, Sizes(frames), gaps, 0, Ends(0, chunks)), [])
  {
    RawsOnLine(frames, gaps);
    LineClosed(Raws(frames), gaps);
    RawsUncut(frames, Raws(frames), Sizes(frames), gaps, 0, Ends(0, chunks));
    UncutPlain(frames, Sizes(frames), gaps, 0, Ends(0, chunks));
    ReadsOfLine(State([], Raws(frames), gaps), chunks);
    RawsRead(Uncut(frames, Sizes(frames), gaps, 0, Ends(0, chunks)));
  }

  lemma ReadsOfLine(t: State, chunks: seq<Bytes>)
    requires Fine(t) && t.noise == [] && Flat(chunks) == Line(t.raws, t.gaps) && Closed(Flat(chunks))
    ensures Feed([], chunks) == Decoded(ReadAll(Uncut(t.raws, Lens(t.raws), t.gaps, 0, Ends(0, chunks))), [])
  {
    assert [] + Flat(chunks) == Flat(chunks);
    ReadsAreIndependent([], chunks);
    EachRead(t, chunks, 0);
    NothingLeft([], chunks);
  }

  /** No read ends inside an item. */
  ghost predicate Clean(lens: seq<nat>, gaps: seq<nat>, from: nat, ends: set<nat>)
    requires |gaps| == |lens| + 1
    decreases |lens|
  {
    lens == [] ||
    (!Hit(ends, from + gaps[0], from + gaps[0] + lens[0]) &&
     Clean(lens[1..], gaps[1..], from + gaps[0] + lens[0], ends))
  }

  lemma {:induction false} UncutCount<T>(items: seq<T>, lens: seq<nat>, gaps: seq<nat>, from: nat, ends: set<nat>)
    requires |lens| == |items| && |gaps| == |items| + 1
    ensures |Uncut(items, lens, gaps, from, ends)| <= |items|
    ensures |Uncut(items, lens, gaps, from, ends)| == |items| <==> Clean(lens, gaps, from, ends)
    ensures Clean(lens, gaps, from, ends) ==> Uncut(items, lens, gaps, from, ends) == items
    decreases |items|
  {
    if items != [] {
      UncutCount(items[1..], lens[1..], gaps[1..], from + gaps[0] + lens[0], ends);
      assert items == [items[0]] + items[1..];
    }
  }

  /** All frames come out if and only if no read ends inside one. */
  lemma AllComeOut(frames: seq<Frame>, gaps: seq<nat>, chunks: seq<Bytes>)
    requires |gaps| == |frames| + 1 && AllPlain(frames) && Flat(chunks) == OnLine(frames, gaps)
    ensures Feed([], chunks).frames == frames <==> Clean(Sizes(frames), gaps, 0, Ends(0, chunks))
  {
    AnyReads(frames, gaps, chunks);
    UncutCount(frames, Sizes(frames), gaps, 0, Ends(0, chunks));
  }
}
