/** The same go-back-N exchange with sequence numbers that never wrap. Two such nodes joined by
    lossy FIFO channels keep `Pair`, from which in-order, gap-free delivery is read off.
    `Network` shows that the modulo-8 connections are, step for step, this system with every
    number reduced modulo 8. */
module Unbounded {
  import opened Common

  datatype Kind = Ua | Disc | Dm

  /** A frame in flight with its true numbers: n is the send number, r the receive number. */
  datatype Msg =
    | Data(n: nat, r: nat, pf: bool, info: Bytes)
    | Sup(rej: bool, r: nat, pf: bool, command: bool)
    | Ctl(kind: Kind)

  /** One side: `sent` holds every piece ever sent as a new I frame, so V(S) is |sent|; the
      first `a` of them are acknowledged; `r` pieces have been accepted from the peer and `got`
      is their contents. `up` is the connected state. */
  datatype Node = Node(up: bool, a: nat, r: nat, sent: seq<Bytes>, txq: seq<Bytes>, got: Bytes)

  datatype Effect = Effect(node: Node, out: seq<Msg>)

  const WINDOW := 7

  function Pump(u: Node): Effect
    decreases |u.txq|
  {
    if !u.up || u.txq == [] || |u.sent| - u.a >= WINDOW then Effect(u, [])
    else
      var e := Pump(u.(sent := u.sent + [u.txq[0]], txq := u.txq[1..]));
      Effect(e.node, [Data(|u.sent|, u.r, false, u.txq[0])] + e.out)
  }

  /** Every sent piece from number `from` on, once more. */
  function Resend(u: Node, from: nat): seq<Msg>
    decreases |u.sent| - from
  {
    if from >= |u.sent| then []
    else [Data(from, u.r, false, u.sent[from])] + Resend(u, from + 1)
  }

  function HandleData(u: Node, m: Msg): Effect
    requires m.Data?
  {
    if !u.up then Effect(u, [Ctl(Dm)])
    else
      var u2 := if m.n != u.r then u.(a := m.r) else u.(a := m.r, r := u.r + 1, got := u.got + m.info);
      var e := Pump(u2);
      Effect(e.node, [Sup(m.n != u.r, u2.r, false, false)] + e.out)
  }

  function HandleSup(u: Node, m: Msg): Effect
    requires m.Sup?
  {
    if !u.up then Effect(u, [])
    else
      var u1 := u.(a := m.r);
      if m.rej then Effect(u1, Resend(u1, m.r)) else Pump(u1)
  }

  function Handle(u: Node, m: Msg): Effect {
    match m
    case Data(_, _, _, _) => HandleData(u, m)
    case Sup(_, _, _, _) => HandleSup(u, m)
    case Ctl(Ua) => Effect(u, [])
    case Ctl(Disc) => Effect(u.(up := false), [Ctl(Ua)])
    case Ctl(Dm) => Effect(u.(up := false), [])
  }

  // ---- the invariant -------------------------------------------------------------------------

  predicate HasR(m: Msg) { m.Data? || m.Sup? }

  /** Receive numbers in flight lie in lo..hi and never decrease along the channel. */
  ghost predicate Acks(back: seq<Msg>, lo: nat, hi: nat) {
    && (forall i :: 0 <= i < |back| && HasR(back[i]) ==> lo <= back[i].r <= hi)
    && (forall i, j :: 0 <= i < j < |back| && HasR(back[i]) && HasR(back[j]) ==> back[i].r <= back[j].r)
  }

  /** Data frames in flight carry their own piece, are at most 7 behind the receiver, and an
      earlier one is less than 7 ahead of a later one. */
  ghost predicate Frames(fwd: seq<Msg>, sent: seq<Bytes>, r: nat) {
    && (forall i :: 0 <= i < |fwd| && fwd[i].Data? ==>
          r <= fwd[i].n + WINDOW && fwd[i].n < |sent| && fwd[i].info == sent[fwd[i].n])
    && (forall i, j :: 0 <= i < j < |fwd| && fwd[i].Data? && fwd[j].Data? ==> fwd[i].n < fwd[j].n + WINDOW)
  }

  /** The direction from `s` to `t`: `fwd` carries its data, `back` its acknowledgements. */
  ghost predicate Dir(s: Node, t: Node, fwd: seq<Msg>, back: seq<Msg>) {
    && s.a <= t.r <= |s.sent| <= s.a + WINDOW
    && Acks(back, s.a, t.r)
    && Frames(fwd, s.sent, t.r)
    && t.got == Flat(s.sent[..t.r])
  }

  ghost predicate Pair(x: Node, y: Node, xy: seq<Msg>, yx: seq<Msg>) {
    Dir(x, y, xy, yx) && Dir(y, x, yx, xy)
  }

  // ---- what may be sent -----------------------------------------------------------------------

  /** Appending frames that carry the sender's current receive number keeps acknowledgements. */
  lemma AcksSend(back: seq<Msg>, lo: nat, hi: nat, out: seq<Msg>)
    requires Acks(back, lo, hi) && lo <= hi
    requires forall i :: 0 <= i < |out| && HasR(out[i]) ==> out[i].r == hi
    ensures Acks(back + out, lo, hi)
  {}

  lemma FramesSend(fwd: seq<Msg>, sent: seq<Bytes>, r: nat, m: Msg)
    requires Frames(fwd, sent, r) && r <= |sent|
    requires m.Data? ==> m.n < |sent| <= m.n + WINDOW && m.info == sent[m.n]
    ensures Frames(fwd + [m], sent, r)
  {}

  lemma PairSend(x: Node, y: Node, xy: seq<Msg>, yx: seq<Msg>, m: Msg)
    requires Pair(x, y, xy, yx)
    requires HasR(m) ==> m.r == x.r
    requires m.Data? ==> x.a <= m.n < |x.sent| && m.info == x.sent[m.n]
    ensures Pair(x, y, xy + [m], yx)
  {
    AcksSend(xy, y.a, x.r, [m]);
    FramesSend(xy, x.sent, y.r, m);
  }

  /** Sending the next piece of the queue inside the window. */
  lemma PairSendNew(x: Node, y: Node, xy: seq<Msg>, yx: seq<Msg>)
    requires Pair(x, y, xy, yx)
    requires x.txq != [] && |x.sent| - x.a < WINDOW
    ensures Pair(x.(sent := x.sent + [x.txq[0]], txq := x.txq[1..]), y,
                 xy + [Data(|x.sent|, x.r, false, x.txq[0])], yx)
  {
    var x1 := x.(sent := x.sent + [x.txq[0]], txq := x.txq[1..]);
    assert x1.sent[..y.r] == x.sent[..y.r];
    PairSend(x1, y, xy, yx, Data(|x.sent|, x.r, false, x.txq[0]));
  }

  lemma {:induction false} PairPump(x: Node, y: Node, xy: seq<Msg>, yx: seq<Msg>)
    requires Pair(x, y, xy, yx)
    ensures Pair(Pump(x).node, y, xy + Pump(x).out, yx)
    ensures Pump(x).node == x.(sent := Pump(x).node.sent, txq := Pump(x).node.txq)
    ensures Pump(x).node.sent + Pump(x).node.txq == x.sent + x.txq
    ensures x.sent <= Pump(x).node.sent
    decreases |x.txq|
  {
    if !x.up || x.txq == [] || |x.sent| - x.a >= WINDOW {
      assert xy + [] == xy;
    } else {
      var m := Data(|x.sent|, x.r, false, x.txq[0]);
      var x1 := x.(sent := x.sent + [x.txq[0]], txq := x.txq[1..]);
      PairSendNew(x, y, xy, yx);
      PairPump(x1, y, xy + [m], yx);
      assert x1.sent + x1.txq == x.sent + x.txq;
      assert xy + ([m] + Pump(x1).out) == xy + [m] + Pump(x1).out;
    }
  }

  lemma {:induction false} PairResend(x: Node, y: Node, xy: seq<Msg>, yx: seq<Msg>, from: nat)
    requires Pair(x, y, xy, yx)
    requires x.a <= from
    ensures Pair(x, y, xy + Resend(x, from), yx)
    decreases |x.sent| - from
  {
    if from >= |x.sent| {
      assert xy + [] == xy;
    } else {
      var m := Data(from, x.r, false, x.sent[from]);
      PairSend(x, y, xy, yx, m);
      PairResend(x, y, xy + [m], yx, from + 1);
      assert xy + ([m] + Resend(x, from + 1)) == xy + [m] + Resend(x, from + 1);
    }
  }

  // ---- what may leave a channel -------------------------------------------------------------

  /** Any frame may be lost. */
  lemma PairLose(x: Node, y: Node, xy: seq<Msg>, yx: seq<Msg>, k: nat)
    requires Pair(x, y, xy, yx) && k < |yx|
    ensures Pair(x, y, xy, yx[..k] + yx[k + 1..])
  {
    var rest := yx[..k] + yx[k + 1..];
    assert forall i :: 0 <= i < |rest| ==> rest[i] == yx[if i < k then i else i + 1];
  }

  /** The head frame is taken and its receive number believed. */
  lemma PairAck(x: Node, y: Node, xy: seq<Msg>, yx: seq<Msg>)
    requires Pair(x, y, xy, yx) && yx != [] && HasR(yx[0])
    ensures x.a <= yx[0].r <= |x.sent|
    ensures Pair(x.(a := yx[0].r), y, xy, yx[1..])
  {
    assert forall i :: 0 <= i < |yx[1..]| ==> yx[1..][i] == yx[i + 1];
  }

  /** The head frame is the next one expected: it is taken, acknowledged and delivered. */
  lemma PairAccept(x: Node, y: Node, xy: seq<Msg>, yx: seq<Msg>)
    requires Pair(x, y, xy, yx) && yx != [] && yx[0].Data? && yx[0].n == x.r
    ensures Pair(x.(a := yx[0].r, r := x.r + 1, got := x.got + yx[0].info), y, xy, yx[1..])
  {
    var m := yx[0];
    PairAck(x, y, xy, yx);
    assert forall i :: 0 <= i < |yx[1..]| ==> yx[1..][i] == yx[i + 1];
    assert y.sent[..x.r + 1] == y.sent[..x.r] + [m.info];
    FlatSnoc(y.sent[..x.r], m.info);
  }

  // ---- the events keep the invariant -----------------------------------------------------------

  ghost predicate HandleKeeps(x: Node, y: Node, xy: seq<Msg>, yx: seq<Msg>, e: Effect)
    requires yx != []
  {
    && Pair(e.node, y, xy + e.out, yx[1..])
    && e.node.sent + e.node.txq == x.sent + x.txq
    && x.sent <= e.node.sent && x.a <= e.node.a && x.r <= e.node.r
  }

  lemma PairHandleData(x: Node, y: Node, xy: seq<Msg>, yx: seq<Msg>)
    requires Pair(x, y, xy, yx) && yx != [] && yx[0].Data?
    ensures HandleKeeps(x, y, xy, yx, HandleData(x, yx[0]))
  {
    var m := yx[0];
    PairAck(x, y, xy, yx);
    if !x.up {
      assert yx[1..] == yx[..0] + yx[1..];
      PairLose(x, y, xy, yx, 0);
      PairSend(x, y, xy, yx[1..], Ctl(Dm));
    } else {
      if m.n == x.r { PairAccept(x, y, xy, yx); }
      var x2 := if m.n != x.r then x.(a := m.r) else x.(a := m.r, r := x.r + 1, got := x.got + m.info);
      var reply := Sup(m.n != x.r, x2.r, false, false);
      PairSend(x2, y, xy, yx[1..], reply);
      PairPump(x2, y, xy + [reply], yx[1..]);
      assert xy + ([reply] + Pump(x2).out) == xy + [reply] + Pump(x2).out;
    }
  }

  lemma PairDrop(x: Node, y: Node, xy: seq<Msg>, yx: seq<Msg>)
    requires Pair(x, y, xy, yx) && yx != []
    ensures Pair(x, y, xy, yx[1..])
  {
    assert yx[1..] == yx[..0] + yx[1..];
    PairLose(x, y, xy, yx, 0);
  }

  lemma PairHandleSup(x: Node, y: Node, xy: seq<Msg>, yx: seq<Msg>)
    requires Pair(x, y, xy, yx) && yx != [] && yx[0].Sup?
    ensures HandleKeeps(x, y, xy, yx, HandleSup(x, yx[0]))
  {
    var m := yx[0];
    if !x.up {
      PairDrop(x, y, xy, yx);
      assert xy + [] == xy;
    } else {
      PairAck(x, y, xy, yx);
      var x1 := x.(a := m.r);
      if m.rej { PairResend(x1, y, xy, yx[1..], m.r); } else { PairPump(x1, y, xy, yx[1..]); }
    }
  }

  /** The head frame of a channel is handled: the invariant is kept, no counter moves back and
      no piece is lost between the queue and the window. */
  lemma PairHandle(x: Node, y: Node, xy: seq<Msg>, yx: seq<Msg>)
    requires Pair(x, y, xy, yx) && yx != []
    ensures HandleKeeps(x, y, xy, yx, Handle(x, yx[0]))
  {
    match yx[0]
    case Data(_, _, _, _) => PairHandleData(x, y, xy, yx);
    case Sup(_, _, _, _) => PairHandleSup(x, y, xy, yx);
    case Ctl(kind) =>
      PairDrop(x, y, xy, yx);
      PairSend(x, y, xy, yx[1..], Ctl(Ua));
      assert xy + [] == xy;
  }
}
