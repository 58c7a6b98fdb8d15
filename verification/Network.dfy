/** Two connections joined by two FIFO channels that may lose any frame. Every run from the start
    of an epoch delivers, on each side, a prefix of what the other side has written. */
module Network {
  import opened Common
  import L = Link
  import T = Timers
  import U = Unbounded
  import opened Modulo

  /** One side: the connection, all pieces its session has written while connected, and all octets it has read. */
  datatype End = End(conn: L.Conn, wrote: seq<Bytes>, taken: Bytes)

  /** `ab` carries frames from a to b, `ba` back; the head is the oldest frame. */
  datatype Sys = Sys(a: End, b: End, ab: seq<L.Msg>, ba: seq<L.Msg>)

  datatype Side = A | B

  /** What may happen at one side. `Lose(k)` destroys frame k of the channel towards it. No action
      sends SABM: a run stays inside one epoch. */
  datatype Act = Write(data: Bytes) | Read | Deliver | Lose(k: nat) | T1 | T3 | Release

  function Flip(s: Sys): Sys { Sys(s.b, s.a, s.ba, s.ab) }

  /** The connection moved to `e.conn` and its frames are put on the channel to b. */
  function Emit(s: Sys, e: L.Effect): Sys {
    s.(a := s.a.(conn := e.conn), ab := s.ab + e.sent)
  }

  function Wrote(e: End, data: Bytes): End { e.(wrote := e.wrote + L.Chunks(data, e.conn.paclen)) }

  /** An action at side a; one that cannot happen changes nothing. */
  function StepA(s: Sys, act: Act): Sys {
    match act
    case Write(data) =>
      if s.a.conn.state != L.Connected then s
      else Emit(s.(a := Wrote(s.a, data)), L.Write(s.a.conn, data))
    case Read =>
      var r := L.Read(s.a.conn);
      s.(a := s.a.(conn := r.0, taken := s.a.taken + (if r.1.None? then [] else r.1.value)))
    case Deliver =>
      if s.ba == [] then s else Emit(s.(ba := s.ba[1..]), L.Handle(s.a.conn, s.ba[0]))
    case Lose(k) =>
      if k >= |s.ba| then s else s.(ba := s.ba[..k] + s.ba[k + 1..])
    case T1 => if s.a.conn.t1 then Emit(s, L.T1Expire(s.a.conn)) else s
    case T3 => if s.a.conn.t3 then Emit(s, L.T3Expire(s.a.conn)) else s
    case Release => Emit(s, L.Disconnect(s.a.conn))
  }

  function Step(s: Sys, side: Side, act: Act): Sys {
    if side == A then StepA(s, act) else Flip(StepA(Flip(s), act))
  }

  function Run(s: Sys, acts: seq<(Side, Act)>): Sys
    decreases |acts|
  {
    if acts == [] then s else Run(Step(s, acts[0].0, acts[0].1), acts[1..])
  }

  /** Octets handed to the receive queue of an end, read or not. */
  function Delivered(e: End): Bytes { e.taken + Flat(e.conn.rxq) }

  /** A connection at the start of an epoch. */
  predicate FreshConn(c: L.Conn) {
    && c.state == L.Connected && T.Safe(c)
    && c.vs == 0 && c.vr == 0 && c.va == 0 && c.unacked == map[]
    && c.txq == [] && c.rxq == [] && !c.peerBusy
  }

  predicate EpochStart(s: Sys) {
    && FreshConn(s.a.conn) && FreshConn(s.b.conn)
    && s.a.wrote == s.b.wrote == [] && s.a.taken == s.b.taken == []
    && s.ab == [] && s.ba == []
  }

  // ---- the shadow with unbounded numbers ----------------------------------------------------------

  datatype Shadow = Shadow(a: U.Node, b: U.Node, ab: seq<U.Msg>, ba: seq<U.Msg>)

  function FlipU(u: Shadow): Shadow { Shadow(u.b, u.a, u.ba, u.ab) }

  ghost predicate EndOk(e: End, u: U.Node) {
    && Rel(e.conn, e.taken, u)
    && u.sent + u.txq == e.wrote
    && T.Safe(e.conn)
  }

  /** `s` is `u` with every number reduced modulo 8, and `u` keeps the unbounded invariant. */
  ghost predicate Coupled(s: Sys, u: Shadow) {
    && EndOk(s.a, u.a) && EndOk(s.b, u.b)
    && s.ab == WireAll(u.ab) && s.ba == WireAll(u.ba)
    && U.Pair(u.a, u.b, u.ab, u.ba)
  }

  /** Counters of the moving side never go back; the other side stays as it is. */
  ghost predicate Moves(u: Shadow, v: Shadow) {
    && u.a.sent <= v.a.sent && u.a.a <= v.a.a && u.a.r <= v.a.r
    && v.b == u.b
  }

  lemma StartCoupled(s: Sys) returns (u: Shadow)
    requires EpochStart(s)
    ensures Coupled(s, u) && u.ab == [] && u.ba == []
    ensures u.a == u.b == U.Node(true, 0, 0, [], [], [])
  {
    var n := U.Node(true, 0, 0, [], [], []);
    u := Shadow(n, n, [], []);
  }

  lemma FlipCoupled(s: Sys, u: Shadow)
    ensures Coupled(Flip(s), FlipU(u)) <==> Coupled(s, u)
  {}

  /** Side a moves to `e` and its node to `f`, with the same frames sent. */
  lemma EmitCoupled(s: Sys, u: Shadow, e: L.Effect, f: U.Effect)
    requires EndOk(s.a.(conn := e.conn), f.node) && EndOk(s.b, u.b)
    requires e.sent == WireAll(f.out) && s.ab == WireAll(u.ab) && s.ba == WireAll(u.ba)
    requires U.Pair(f.node, u.b, u.ab + f.out, u.ba)
    ensures Coupled(Emit(s, e), u.(a := f.node, ab := u.ab + f.out))
  {
    WireAllConcat(u.ab, f.out);
  }

  // ---- one step, action by action --------------------------------------------------------------------

  lemma StepDeliver(s: Sys, u: Shadow) returns (v: Shadow)
    requires Coupled(s, u) && s.ba != []
    ensures Coupled(StepA(s, Deliver), v) && Moves(u, v)
    ensures var f := U.Handle(u.a, u.ba[0]); v == Shadow(f.node, u.b, u.ab + f.out, u.ba[1..])
  {
    var m := u.ba[0];
    assert s.ba[0] == Wire(m);
    HeadInWindow(u);
    HandleSame(s.a.conn, s.a.taken, u.a, m);
    U.PairHandle(u.a, u.b, u.ab, u.ba);
    NotStray(s, u);
    T.ReceiveSafe(s.a.conn, s.ba[0]);
    var f := U.Handle(u.a, m);
    v := Shadow(f.node, u.b, u.ab + f.out, u.ba[1..]);
    assert WireAll(u.ba[1..]) == s.ba[1..];
    EmitCoupled(s.(ba := s.ba[1..]), u.(ba := u.ba[1..]), L.Handle(s.a.conn, s.ba[0]), f);
  }

  /** The numbers of a frame about to be delivered are unambiguous. */
  lemma HeadInWindow(u: Shadow)
    requires U.Pair(u.a, u.b, u.ab, u.ba) && u.ba != []
    ensures InWindow(u.a, u.ba[0])
  {}

  lemma NotStray(s: Sys, u: Shadow)
    requires Coupled(s, u) && s.ba != []
    ensures !T.Stray(s.a.conn, s.ba[0])
  {
    assert s.ba[0] == Wire(u.ba[0]);
    HeadInWindow(u);
    WindowNotStray(s.a.conn, s.a.taken, u.a, u.ba[0]);
  }

  /** With T1 off nothing is outstanding, and only V(S) can be acknowledged. */
  lemma WindowNotStray(c: L.Conn, taken: Bytes, u: U.Node, m: U.Msg)
    requires Rel(c, taken, u) && T.Safe(c) && InWindow(u, m)
    ensures !T.Stray(c, Wire(m))
  {
    DistMod(u.a, |u.sent|);
    assert c.va == c.vs ==> u.a == |u.sent|;
  }

  lemma StepLose(s: Sys, u: Shadow, k: nat) returns (v: Shadow)
    requires Coupled(s, u) && k < |s.ba|
    ensures Coupled(StepA(s, Lose(k)), v) && Moves(u, v)
  {
    U.PairLose(u.a, u.b, u.ab, u.ba, k);
    v := u.(ba := u.ba[..k] + u.ba[k + 1..]);
    assert WireAll(v.ba) == s.ba[..k] + s.ba[k + 1..];
  }

  lemma StepWrite(s: Sys, u: Shadow, data: Bytes) returns (v: Shadow)
    requires Coupled(s, u) && s.a.conn.state == L.Connected
    ensures Coupled(StepA(s, Write(data)), v) && Moves(u, v)
    ensures var f := U.Pump(u.a.(txq := u.a.txq + L.Chunks(data, s.a.conn.paclen)));
            v == u.(a := f.node, ab := u.ab + f.out)
  {
    var cs := L.Chunks(data, s.a.conn.paclen);
    var n := u.a.(txq := u.a.txq + cs);
    PumpSame(s.a.conn.(txq := s.a.conn.txq + cs), s.a.taken, n);
    U.PairPump(n, u.b, u.ab, u.ba);
    T.WriteSafe(s.a.conn, data);
    var f := U.Pump(n);
    v := u.(a := f.node, ab := u.ab + f.out);
    Chain(u.a.sent, u.a.txq, cs);
    EmitCoupled(s.(a := Wrote(s.a, data)), u, L.Write(s.a.conn, data), f);
  }

  lemma StepRead(s: Sys, u: Shadow)
    requires Coupled(s, u)
    ensures Coupled(StepA(s, Read), u)
    ensures Delivered(StepA(s, Read).a) == Delivered(s.a)
  {
    var q := s.a.conn.rxq;
    if q != [] {
      assert s.a.taken + (q[0] + Flat(q[1..])) == s.a.taken + q[0] + Flat(q[1..]);
    }
  }

  /** Sending frames without numbers, or with the current V(R), is always sound. */
  lemma StepSend(s: Sys, u: Shadow, d: L.Conn, up: bool, m: U.Msg) returns (v: Shadow)
    requires Coupled(s, u)
    requires Rel(d, s.a.taken, u.a.(up := up)) && T.Safe(d)
    requires !m.Data? && (m.Sup? ==> m.r == u.a.r)
    ensures Coupled(Emit(s, L.Effect(d, [Wire(m)])), v) && Moves(u, v)
    ensures v == u.(a := u.a.(up := up), ab := u.ab + [m])
  {
    U.PairSend(u.a, u.b, u.ab, u.ba, m);
    v := u.(a := u.a.(up := up), ab := u.ab + [m]);
    WireAllConcat(u.ab, [m]);
  }

  lemma ResentIs(c: L.Conn, taken: Bytes, u: U.Node)
    requires Rel(c, taken, u) && c.t1 && c.state == L.Connected && c.vs != c.va && c.retries < L.MAX_RETRIES
    ensures Same(L.T1Expire(c), taken, U.Effect(u, U.Resend(u, u.a)))
  {
    RetransmitSame(c.(t1 := false, retries := c.retries + 1), taken, u, u.a);
  }

  /** T1 with frames outstanding and a retry left resends all of them. */
  lemma StepT1Resend(s: Sys, u: Shadow) returns (v: Shadow)
    requires Coupled(s, u) && s.a.conn.t1 && s.a.conn.state == L.Connected
    requires s.a.conn.vs != s.a.conn.va && s.a.conn.retries < L.MAX_RETRIES
    ensures Coupled(StepA(s, T1), v) && Moves(u, v)
    ensures v == u.(ab := u.ab + U.Resend(u.a, u.a.a))
  {
    U.PairResend(u.a, u.b, u.ab, u.ba, u.a.a);
    T.T1ExpirySafe(s.a.conn);
    v := u.(ab := u.ab + U.Resend(u.a, u.a.a));
    ResentIs(s.a.conn, s.a.taken, u.a);
    EmitCoupled(s, u, L.T1Expire(s.a.conn), U.Effect(u.a, U.Resend(u.a, u.a.a)));
  }

  lemma StepT1(s: Sys, u: Shadow) returns (v: Shadow)
    requires Coupled(s, u) && s.a.conn.t1
    ensures Coupled(StepA(s, T1), v) && Moves(u, v)
  {
    var c := s.a.conn;
    var d := L.T1Expire(c).conn;
    T.T1ExpirySafe(c);
    if c.state == L.Connected && c.vs != c.va && c.retries < L.MAX_RETRIES {
      v := StepT1Resend(s, u);
    } else {
      CloseSame(c, s.a.taken, u.a, d, d.state == L.Connected);
      if d.state == L.Disconnected {
        v := u.(a := u.a.(up := false));
        assert s.ab + [] == s.ab;
      } else if d.state == L.Connected {
        v := StepSend(s, u, d, true, U.Sup(false, u.a.r, true, true));
      } else {
        v := StepSend(s, u, d, false, U.Ctl(U.Disc));
      }
    }
  }

  lemma StepT3(s: Sys, u: Shadow) returns (v: Shadow)
    requires Coupled(s, u) && s.a.conn.t3
    ensures Coupled(StepA(s, T3), v) && Moves(u, v)
    ensures s.a.conn.state == L.Connected && v == u.(ab := u.ab + [U.Sup(false, u.a.r, true, true)])
  {
    var d := L.T3Expire(s.a.conn).conn;
    T.T3ExpirySafe(s.a.conn);
    CloseSame(s.a.conn, s.a.taken, u.a, d, true);
    v := StepSend(s, u, d, true, U.Sup(false, u.a.r, true, true));
  }

  lemma StepRelease(s: Sys, u: Shadow) returns (v: Shadow)
    requires Coupled(s, u)
    ensures Coupled(StepA(s, Release), v) && Moves(u, v)
  {
    if s.a.conn.state == L.Connected {
      var d := L.Disconnect(s.a.conn).conn;
      CloseSame(s.a.conn, s.a.taken, u.a, d, false);
      v := StepSend(s, u, d, false, U.Ctl(U.Disc));
    } else {
      v := u;
      assert s.ab + [] == s.ab;
    }
  }

  lemma StepACoupled(s: Sys, u: Shadow, act: Act) returns (v: Shadow)
    requires Coupled(s, u)
    ensures Coupled(StepA(s, act), v) && Moves(u, v)
  {
    v := u;
    match act
    case Write(data) => if s.a.conn.state == L.Connected { v := StepWrite(s, u, data); }
    case Read => StepRead(s, u);
    case Deliver => if s.ba != [] { v := StepDeliver(s, u); }
    case Lose(k) => if k < |s.ba| { v := StepLose(s, u, k); }
    case T1 => if s.a.conn.t1 { v := StepT1(s, u); }
    case T3 => if s.a.conn.t3 { v := StepT3(s, u); }
    case Release => v := StepRelease(s, u);
  }

  /** Every step of the modulo-8 system is a step of the unbounded one. */
  lemma StepCoupled(s: Sys, u: Shadow, side: Side, act: Act) returns (v: Shadow)
    requires Coupled(s, u)
    ensures Coupled(Step(s, side, act), v)
    ensures if side == A then Moves(u, v) else Moves(FlipU(u), FlipU(v))
  {
    if side == A {
      v := StepACoupled(s, u, act);
    } else {
      FlipCoupled(s, u);
      var w := StepACoupled(Flip(s), FlipU(u), act);
      v := FlipU(w);
      FlipCoupled(StepA(Flip(s), act), w);
    }
  }

  lemma {:induction false} RunCoupled(s: Sys, u: Shadow, acts: seq<(Side, Act)>) returns (v: Shadow)
    requires Coupled(s, u)
    ensures Coupled(Run(s, acts), v)
    decreases |acts|
  {
    if acts == [] {
      v := u;
    } else {
      var w := StepCoupled(s, u, acts[0].0, acts[0].1);
      v := RunCoupled(Step(s, acts[0].0, acts[0].1), w, acts[1..]);
    }
  }

  // ---- the theorems ------------------------------------------------------------------------------------

  /** Octets sent and not yet acknowledged, in order, as the walk V(A) .. V(S)-1 finds them. */
  function Outstanding(c: L.Conn, from: L.SeqNo): seq<Bytes>
    decreases L.Dist(from, c.vs)
  {
    if from == c.vs then []
    else
      L.DistNext(from, c.vs);
      (if from in c.unacked then [c.unacked[from].info] else []) + Outstanding(c, L.Next(from))
  }

  lemma {:induction false} OutstandingIs(c: L.Conn, taken: Bytes, u: U.Node, from: nat)
    requires Rel(c, taken, u) && u.a <= from <= |u.sent|
    ensures Outstanding(c, from % 8) == u.sent[from..]
    decreases |u.sent| - from
  {
    if from < |u.sent| {
      StoredAt(c, taken, u, from);
      NextMod(from);
      OutstandingIs(c, taken, u, from + 1);
      assert u.sent[from..] == [u.sent[from]] + u.sent[from + 1..];
    }
  }

  /** The pieces written are acknowledged, outstanding or queued, in that order. */
  ghost predicate Accounted(e: End, acked: seq<Bytes>) {
    e.wrote == acked + Outstanding(e.conn, e.conn.va) + e.conn.txq
  }

  /** b has been given the first `r` pieces that a has written: all acknowledged ones, and none of the queue. */
  ghost predicate DeliveredUpTo(s: Sys, acked: seq<Bytes>, r: nat) {
    && |acked| <= r <= |acked| + |Outstanding(s.a.conn, s.a.conn.va)| <= |s.a.wrote|
    && Delivered(s.b) == Flat(s.a.wrote[..r])
  }

  /** What a pair of nodes says, with no shadow in it: every piece is accounted for, what is acknowledged
      has been delivered, and what is delivered was sent. */
  ghost predicate Conserved(s: Sys) {
    exists acked: seq<Bytes>, r: nat :: Accounted(s.a, acked) && DeliveredUpTo(s, acked, r)
  }

  lemma PairConserved(s: Sys, u: Shadow)
    requires Coupled(s, u)
    ensures Conserved(s)
    ensures Delivered(s.b) <= Flat(s.a.wrote)
  {
    var acked, r := u.a.sent[..u.a.a], u.b.r;
    EndAccounted(s.a, u.a);
    PrefixOfFront(u.a.sent, u.a.txq, r);
    assert DeliveredUpTo(s, acked, r);
    FlatPrefix(s.a.wrote, r);
  }

  lemma PrefixOfFront<T>(xs: seq<T>, ys: seq<T>, r: nat)
    requires r <= |xs|
    ensures (xs + ys)[..r] == xs[..r]
  {}

  lemma EndAccounted(e: End, u: U.Node)
    requires EndOk(e, u)
    ensures Accounted(e, u.sent[..u.a]) && |Outstanding(e.conn, e.conn.va)| == |u.sent| - u.a
  {
    OutstandingIs(e.conn, e.taken, u, u.a);
    assert u.sent == u.sent[..u.a] + u.sent[u.a..];
  }

  /** Safety: in every run, whatever is lost and whichever timers run out, what each side has
      received is a prefix of what the other has written, every piece is accounted for, and
      every timer that must run is running. */
  lemma InOrderDelivery(s: Sys, acts: seq<(Side, Act)>)
    requires EpochStart(s)
    ensures var t := Run(s, acts);
            && Delivered(t.b) <= Flat(t.a.wrote) && Delivered(t.a) <= Flat(t.b.wrote)
            && Conserved(t) && Conserved(Flip(t))
            && T.Safe(t.a.conn) && T.Safe(t.b.conn)
  {
    var u := StartCoupled(s);
    var v := RunCoupled(s, u, acts);
    PairConserved(Run(s, acts), v);
    FlipCoupled(Run(s, acts), v);
    PairConserved(Flip(Run(s, acts)), FlipU(v));
  }

  /** The retransmission buffer: exactly the keys V(A) .. V(S)-1 modulo 8, never more than 7, and under each
      the piece written at that place behind the acknowledged ones, as the frame of that number. */
  ghost predicate BufferHolds(e: End, acked: seq<Bytes>) {
    var c := e.conn;
    && Accounted(e, acked)
    && L.Dist(c.va, c.vs) <= L.WINDOW
    && |c.unacked| == L.Dist(c.va, c.vs)
    && |acked| + |c.unacked| + |c.txq| == |e.wrote|
    && forall k: L.SeqNo ::
         && (k in c.unacked <==> L.Dist(c.va, k) < L.Dist(c.va, c.vs))
         && (k in c.unacked ==> c.unacked[k].ns == k && c.unacked[k].info == e.wrote[|acked| + L.Dist(c.va, k)])
  }

  ghost predicate BufferOk(e: End) { exists acked :: BufferHolds(e, acked) }

  lemma EndBufferOk(e: End, u: U.Node)
    requires EndOk(e, u)
    ensures BufferOk(e)
  {
    var c, acked := e.conn, u.sent[..u.a];
    DistMod(u.a, |u.sent|);
    WindowSize(c.unacked, c.va, L.Dist(c.va, c.vs));
    EndAccounted(e, u);
    assert BufferHolds(e, acked);
  }

  /** It is so at both ends at every point of every run. */
  lemma BufferAgrees(s: Sys, acts: seq<(Side, Act)>)
    requires EpochStart(s)
    ensures BufferOk(Run(s, acts).a) && BufferOk(Run(s, acts).b)
  {
    var u := StartCoupled(s);
    var v := RunCoupled(s, u, acts);
    EndBufferOk(Run(s, acts).a, v.a);
    EndBufferOk(Run(s, acts).b, v.b);
  }

  lemma {:induction false} WindowSize(m: map<L.SeqNo, L.IMsg>, from: L.SeqNo, n: nat)
    requires n < 8
    requires forall k: L.SeqNo :: k in m <==> L.Dist(from, k) < n
    ensures |m| == n
    decreases n
  {
    if n == 0 {
      assert m.Keys == {};
    } else {
      var last := (from + n - 1) % 8;
      assert L.Dist(from, last) == n - 1;
      var m1 := m - {last};
      forall k: L.SeqNo ensures k in m1 <==> L.Dist(from, k) < n - 1 {
        if L.Dist(from, k) == n - 1 { assert k == last; }
      }
      WindowSize(m1, from, n - 1);
      assert m.Keys == m1.Keys + {last};
      assert |m1.Keys| == |m1| && |m.Keys| == |m|;
    }
  }

  // ---- both sides, and how an epoch starts ----------------------------------------------------------------

  function FlipActs(acts: seq<(Side, Act)>): seq<(Side, Act)> {
    if acts == [] then [] else [(if acts[0].0 == A then B else A, acts[0].1)] + FlipActs(acts[1..])
  }

  /** Nothing tells the sides apart: what is shown of a in all runs holds of b. */
  lemma {:induction false} RunFlip(s: Sys, acts: seq<(Side, Act)>)
    ensures Run(Flip(s), FlipActs(acts)) == Flip(Run(s, acts))
    decreases |acts|
  {
    if acts != [] {
      var flipped := FlipActs(acts);
      assert flipped[1..] == FlipActs(acts[1..]);
      assert Flip(Flip(s)) == s;
      RunFlip(Step(s, acts[0].0, acts[0].1), acts[1..]);
    }
  }

  /** A connection as constructed. */
  predicate Unused(c: L.Conn) {
    c.state == L.Disconnected && !c.t1 && !c.t3 && c.txq == [] && c.rxq == []
  }

  /** SABM one way and UA back take two such connections to the start of an epoch. */
  lemma HandshakeOpensEpoch(a: L.Conn, b: L.Conn)
    requires Unused(a) && Unused(b)
    ensures var call := L.Connect(a);
            var answer := L.Handle(b, L.SABM);
            var done := L.Handle(call.conn, L.UA);
            && call.sent == [L.SABM] && answer.sent == [L.UA] && done.sent == []
            && EpochStart(Sys(End(done.conn, [], []), End(answer.conn, [], []), [], []))
  {
    var call := L.Connect(a);
    assert L.PumpBlocked(L.ResetCounters(call.conn).(t1 := false, state := L.Connected, t3 := true));
  }

  // ---- what is in flight while connected -------------------------------------------------------------------

  /** A frame with N(R). */
  predicate HasNr(m: L.Msg) { m.I? || m.RR? || m.REJ? }

  predicate Numbered(ms: seq<L.Msg>) {
    forall i :: 0 <= i < |ms| ==> HasNr(ms[i])
  }

  lemma {:induction false} PumpNumbered(c: L.Conn)
    ensures Numbered(L.PumpTx(c).sent)
    decreases |c.txq|
  {
    if !L.PumpBlocked(c) { PumpNumbered(L.SendNext(c)); }
  }

  lemma {:induction false} RetransmitNumbered(c: L.Conn, k: L.SeqNo)
    ensures Numbered(L.RetransmitFrom(c, k).sent)
    decreases L.Dist(k, c.vs)
  {
    if k != c.vs {
      L.DistNext(k, c.vs);
      if k in c.unacked {
        RetransmitNumbered(c.(unacked := c.unacked[k := L.Again(c, k)]), L.Next(k));
      } else {
        RetransmitNumbered(c, L.Next(k));
      }
    }
  }

  /** An event leaves a station connected only if it was, and then it sends numbered frames only. */
  ghost predicate StaysNumbered(c: L.Conn, e: L.Effect) {
    e.conn.state == L.Connected ==> c.state == L.Connected && Numbered(e.sent)
  }

  lemma HandleNumbered(c: L.Conn, m: L.Msg)
    requires c.state != L.AwaitingConnect && m != L.SABM
    ensures StaysNumbered(c, L.Handle(c, m))
  {
    if c.state == L.Connected {
      match m
      case I(_, _, _, _) =>
        var d := L.Received(c, m);
        PumpNumbered(if d.va == d.vs then d.(t1 := false) else d);
      case RR(nr, _, _) =>
        var d := L.UpdateVa(c.(peerBusy := false), nr).(t3 := true);
        PumpNumbered(if d.va == d.vs then d.(t1 := false) else d);
      case REJ(nr, _, _) => RetransmitNumbered(L.UpdateVa(c, nr).(t1 := false), nr);
      case _ =>
    } else {
      HandleDown(c, m);
    }
  }

  lemma HandleDown(c: L.Conn, m: L.Msg)
    requires c.state != L.AwaitingConnect && m != L.SABM && c.state != L.Connected
    ensures L.Handle(c, m).conn.state != L.Connected
  {}

  lemma T1Numbered(c: L.Conn)
    requires c.t1
    ensures StaysNumbered(c, L.T1Expire(c))
  {
    var c1 := c.(t1 := false, retries := c.retries + 1);
    RetransmitNumbered(c1, c1.va);
  }

  /** An end that is connected has sent no unnumbered frame. */
  ghost predicate UpNumbered(s: Sys) {
    && (s.a.conn.state == L.Connected ==> Numbered(s.ab))
    && (s.b.conn.state == L.Connected ==> Numbered(s.ba))
  }

  lemma NumberedConcat(xs: seq<L.Msg>, ys: seq<L.Msg>)
    requires Numbered(xs) && Numbered(ys)
    ensures Numbered(xs + ys)
  {}

  lemma EmitNumbered(s: Sys, c: L.Conn, e: L.Effect)
    requires UpNumbered(s) && c.state == s.a.conn.state && StaysNumbered(c, e)
    ensures UpNumbered(Emit(s, e))
  {
    if e.conn.state == L.Connected { NumberedConcat(s.ab, e.sent); }
  }

  lemma LossNumbered(ms: seq<L.Msg>, k: nat)
    requires Numbered(ms) && k < |ms|
    ensures Numbered(ms[..k] + ms[k + 1..])
  {}

  lemma StepANumbered(s: Sys, u: Shadow, act: Act)
    requires Coupled(s, u) && UpNumbered(s)
    ensures UpNumbered(StepA(s, act))
  {
    var c := s.a.conn;
    match act
    case Write(data) =>
      if c.state == L.Connected {
        PumpNumbered(c.(txq := c.txq + L.Chunks(data, c.paclen)));
        EmitNumbered(s.(a := Wrote(s.a, data)), c, L.Write(c, data));
      }
    case Read =>
    case Deliver =>
      if s.ba != [] {
        assert s.ba[0] == Wire(u.ba[0]);
        HandleNumbered(c, s.ba[0]);
        EmitNumbered(s.(ba := s.ba[1..]), c, L.Handle(c, s.ba[0]));
      }
    case Lose(k) => if k < |s.ba| && s.b.conn.state == L.Connected { LossNumbered(s.ba, k); }
    case T1 =>
      if c.t1 {
        T1Numbered(c);
        EmitNumbered(s, c, L.T1Expire(c));
      }
    case T3 => if c.t3 { EmitNumbered(s, c, L.T3Expire(c)); }
    case Release => EmitNumbered(s, c, L.Disconnect(c));
  }

  lemma StepNumbered(s: Sys, u: Shadow, side: Side, act: Act)
    requires Coupled(s, u) && UpNumbered(s)
    ensures UpNumbered(Step(s, side, act))
  {
    if side == A {
      StepANumbered(s, u, act);
    } else {
      FlipCoupled(s, u);
      StepANumbered(Flip(s), FlipU(u), act);
    }
  }

  lemma {:induction false} RunNumbered(s: Sys, u: Shadow, acts: seq<(Side, Act)>)
    requires Coupled(s, u) && UpNumbered(s)
    ensures UpNumbered(Run(s, acts))
    decreases |acts|
  {
    if acts != [] {
      var w := StepCoupled(s, u, acts[0].0, acts[0].1);
      StepNumbered(s, u, acts[0].0, acts[0].1);
      RunNumbered(Step(s, acts[0].0, acts[0].1), w, acts[1..]);
    }
  }

  /** In a run, a connected end has only I, RR and REJ frames on its way out: U frames come with the end of
      the epoch. */
  lemma ConnectedIsNumbered(s: Sys, acts: seq<(Side, Act)>)
    requires EpochStart(s)
    ensures UpNumbered(Run(s, acts))
  {
    var u := StartCoupled(s);
    RunNumbered(s, u, acts);
  }
}
