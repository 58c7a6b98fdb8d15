/** Why the progress theorem needs the keep-alive: a queue can be left behind. `_handle_rej` does
    not pump, so a REJ that acknowledges everything leaves queued data unsent with T1 off. */
module Stall {
  import opened Common
  import L = Link
  import U = Unbounded
  import opened Modulo
  import opened Network
  import opened Recovery

  // ---- when a REJ strands the queue -----------------------------------------------------------------

  /** Data waits although the window is open. */
  predicate Stranded(c: L.Conn) {
    c.state == L.Connected && !L.PumpBlocked(c)
  }

  /** Of the frames that carry N(R) to a connected station, only a REJ can strand its queue, and it does
      so exactly when there is a queue and the REJ opens the window. */
  lemma OnlyRejStrands(c: L.Conn, m: L.Msg)
    requires c.state == L.Connected && (m.I? || m.RR? || m.RNR? || m.REJ?)
    ensures Stranded(L.Handle(c, m).conn) <==>
            m.REJ? && !c.peerBusy && c.txq != [] && L.Dist(m.nr, c.vs) < L.WINDOW
  {
    if m.I? {
      var d := L.Received(c, m);
      L.PumpFrame(if d.va == d.vs then d.(t1 := false) else d);
    } else if m.RR? {
      var c1 := L.UpdateVa(c.(peerBusy := false), m.nr).(t3 := true);
      L.PumpFrame(if c1.va == c1.vs then c1.(t1 := false) else c1);
    } else if m.REJ? {
      L.RetransmitFrame(L.UpdateVa(c, m.nr).(t1 := false), m.nr);
    }
  }

  // ---- the stalled link --------------------------------------------------------------------------------

  /** A connected station with nothing to send and T1 off. */
  predicate Idle(c: L.Conn) {
    c.state == L.Connected && c.va == c.vs && c.txq == [] && !c.t1
  }

  /** a has data queued and an open window; b is idle; only idle polls are in flight. */
  predicate Stalled(s: Sys) {
    && s.a.conn.state == L.Connected && s.a.conn.va == s.a.conn.vs && s.a.conn.txq != []
    && Idle(s.b.conn)
    && s.a.conn.vr == s.b.conn.vs && s.b.conn.vr == s.a.conn.vs
    && s.ba == []
    && forall i :: 0 <= i < |s.ab| ==> s.ab[i].RR? && s.ab[i].nr == s.b.conn.vs
  }

  /** Every action but a new write, a release, or b's keep-alive. */
  predicate NoHelp(side: Side, act: Act) {
    !act.Write? && !act.Release? && !(side == B && act == T3)
  }

  lemma StalledStep(s: Sys, side: Side, act: Act)
    requires Stalled(s) && NoHelp(side, act)
    ensures Stalled(Step(s, side, act))
    ensures Step(s, side, act).a.conn.txq == s.a.conn.txq
    ensures Delivered(Step(s, side, act).b) == Delivered(s.b)
  {
    if side == B && act == Read && s.b.conn.rxq != [] {
      var q := s.b.conn.rxq;
      assert s.b.taken + (q[0] + Flat(q[1..])) == s.b.taken + q[0] + Flat(q[1..]);
    }
  }

  /** Nothing is ever sent again: for all runs without help, a's queue and b's data stay as they are. */
  lemma {:induction false} StalledRun(s: Sys, acts: seq<(Side, Act)>)
    requires Stalled(s)
    requires forall k :: 0 <= k < |acts| ==> NoHelp(acts[k].0, acts[k].1)
    ensures Stalled(Run(s, acts))
    ensures Run(s, acts).a.conn.txq == s.a.conn.txq
    ensures Delivered(Run(s, acts).b) == Delivered(s.b)
    decreases |acts|
  {
    if acts != [] {
      assert NoHelp(acts[0].0, acts[0].1);
      StalledStep(s, acts[0].0, acts[0].1);
      assert forall k :: 0 <= k < |acts[1..]| ==> acts[1..][k] == acts[k + 1];
      StalledRun(Step(s, acts[0].0, acts[0].1), acts[1..]);
    }
  }

  // ---- it is reached ----------------------------------------------------------------------------------------

  function LoseAll(s: Sys): Sys
    decreases |s.ba|
  {
    if s.ba == [] then s else LoseAll(StepA(s, Lose(0)))
  }

  /** a writes one piece more than the window holds; b receives all seven, but its replies are lost;
      T1 resends them, b rejects the duplicates, and only the first REJ arrives. */
  function Schedule(s: Sys, data: Bytes): Sys {
    var s1 := Drain(StepA(s, Write(data)), B);
    var s2 := Drain(StepA(LoseAll(s1), T1), B);
    LoseAll(StepA(s2, Deliver))
  }

  lemma {:induction false} LoseAllIs(s: Sys)
    ensures LoseAll(s) == s.(ba := [])
    decreases |s.ba|
  {
    if s.ba != [] { LoseAllIs(StepA(s, Lose(0))); }
  }

  lemma EmptyCoupled(s: Sys, u: Shadow)
    requires Coupled(s, u)
    ensures Coupled(s.(ba := []), u.(ba := []))
  {
    PairEmpty(u.a, u.b, u.ab, u.ba);
  }

  lemma PairEmpty(x: U.Node, y: U.Node, xy: seq<U.Msg>, yx: seq<U.Msg>)
    requires U.Pair(x, y, xy, yx)
    ensures U.Pair(x, y, xy, [])
  {}

  /** A duplicate is answered by a REJ and nothing else when there is nothing to send. */
  ghost predicate Duplicates(ms: seq<U.Msg>, r: nat) {
    forall i :: 0 <= i < |ms| ==> ms[i].Data? && ms[i].n < r
  }

  lemma {:induction false} ResendDuplicates(u: U.Node, from: nat, r: nat)
    requires |u.sent| <= r
    ensures Duplicates(U.Resend(u, from), r)
    decreases |u.sent| - from
  {
    if from < |u.sent| { ResendDuplicates(u, from + 1, r); }
  }

  ghost predicate Rejects(ms: seq<U.Msg>, r: nat) {
    forall i :: 0 <= i < |ms| ==> ms[i].Sup? && ms[i].rej && ms[i].r == r
  }

  lemma {:induction false} DuplicatesRejected(u: Shadow)
    requires u.a.up && u.a.txq == [] && Duplicates(u.ba, u.a.r) && Rejects(u.ab, u.a.r)
    ensures Rejects(DrainU(u).ab, u.a.r)
    ensures |DrainU(u).ab| == |u.ab| + |u.ba|
    decreases |u.ba|
  {
    if u.ba != [] {
      var f := U.Handle(u.a, u.ba[0]);
      assert f.out == [U.Sup(true, u.a.r, false, false)];
      DuplicatesRejected(Shadow(f.node, u.b, u.ab + f.out, u.ba[1..]));
    }
  }

  /** An idle station that receives only acknowledgements of what it has sent stays idle. */
  lemma IdleStays(c: L.Conn, m: L.Msg)
    requires Idle(c) && (m.I? || m.RR? || m.REJ?) && m.nr == c.vs
    ensures Idle(L.Handle(c, m).conn) && L.Handle(c, m).conn.vs == c.vs
  {}

  lemma {:induction false} IdleDrain(s: Sys)
    requires Idle(s.a.conn) && Numbered(s.ba)
    requires forall i :: 0 <= i < |s.ba| ==> s.ba[i].nr == s.a.conn.vs
    ensures Idle(DeliverN(s, |s.ba|).a.conn)
    decreases |s.ba|
  {
    if s.ba != [] {
      IdleStays(s.a.conn, s.ba[0]);
      IdleDrain(StepA(s, Deliver));
    }
  }

  /** A station that has sent nothing is only ever acknowledged up to nothing. */
  lemma NothingToAck(s: Sys, u: Shadow)
    requires Coupled(s, u) && AllR(u.ba) && u.a.sent == []
    ensures Numbered(s.ba) && forall i :: 0 <= i < |s.ba| ==> s.ba[i].nr == s.a.conn.vs
  {
    forall i | 0 <= i < |s.ba| ensures (s.ba[i].I? || s.ba[i].RR? || s.ba[i].REJ?) && s.ba[i].nr == s.a.conn.vs {
      assert s.ba[i] == Wire(u.ba[i]);
      assert u.ba[i].r == 0;
    }
  }

  // ---- the schedule, stage by stage -------------------------------------------------------------------------

  /** a has seven frames out and one piece queued; b is idle and has sent nothing. */
  ghost predicate Full(s: Sys, u: Shadow) {
    && Quiet(s, u) && Idle(s.b.conn) && u.b.sent == [] && u.b.txq == []
    && u.a.a == 0 && |u.a.sent| == 7 && |u.a.txq| == 1 && s.a.conn.retries < L.MAX_RETRIES
  }

  lemma FirstWindow(n: U.Node)
    requires n.up && n.a == 0 && n.sent == [] && |n.txq| == 8 && n.r == 0
    ensures var f := U.Pump(n);
            && |f.node.sent| == 7 && |f.node.txq| == 1 && f.node.up && f.node.a == 0
            && AllR(f.out) && FinalR(0, f.out) == 7
  {
    var f := U.Pump(n);
    PumpOut(n);
    FinalRPump(n);
    assert |f.node.sent + f.node.txq| == |n.sent + n.txq|;
    PumpAtMost(n);
  }

  lemma {:induction false} PumpAtMost(n: U.Node)
    requires |n.sent| <= n.a + U.WINDOW
    ensures |U.Pump(n).node.sent| <= n.a + U.WINDOW
    decreases |n.txq|
  {
    if !(!n.up || n.txq == [] || |n.sent| - n.a >= U.WINDOW) {
      PumpAtMost(n.(sent := n.sent + [n.txq[0]], txq := n.txq[1..]));
    }
  }

  lemma AfterWrite(s: Sys, data: Bytes) returns (u: Shadow)
    requires EpochStart(s) && !s.b.conn.t1 && s.a.conn.retries < L.MAX_RETRIES
    requires |L.Chunks(data, s.a.conn.paclen)| == 8
    ensures Full(StepA(s, Write(data)), u)
    ensures FinalR(u.b.r, u.ab) == 7 && u.ba == []
  {
    var u0 := StartCoupled(s);
    var cs := L.Chunks(data, s.a.conn.paclen);
    FirstWindow(u0.a.(txq := u0.a.txq + cs));
    u := StepWrite(s, u0, data);
    L.PumpFrame(s.a.conn.(txq := s.a.conn.txq + cs));
    assert u.ab == U.Pump(u0.a.(txq := u0.a.txq + cs)).out;
  }

  /** b receives everything in flight and stays idle. */
  lemma AtB(s: Sys, u: Shadow) returns (v: Shadow)
    requires Full(s, u)
    ensures Full(Drain(s, B), v)
    ensures v == FlipU(DrainU(FlipU(u))) && v.a == u.a && v.ab == [] && v.b.r == FinalR(u.b.r, u.ab)
  {
    FlipCoupled(s, u);
    var w := DrainA(Flip(s), FlipU(u));
    v := FlipU(w);
    FlipCoupled(Drain(s, B), v);
    NothingToAck(Flip(s), FlipU(u));
    IdleDrain(Flip(s));
    assert v.b.sent + v.b.txq == [];
  }

  /** Every reply of b is lost. */
  lemma Lost(s: Sys, u: Shadow)
    requires Full(s, u)
    ensures Full(LoseAll(s), u.(ba := []))
  {
    LoseAllIs(s);
    EmptyCoupled(s, u);
  }

  /** T1 at a, everything still unacknowledged. */
  lemma AfterT1(s: Sys, u: Shadow) returns (v: Shadow)
    requires Quiet(s, u) && Idle(s.b.conn) && u.b.sent == [] && u.b.txq == []
    requires u.a.a == 0 && |u.a.sent| == 7 && |u.a.txq| == 1 && s.a.conn.retries < L.MAX_RETRIES
    requires u.ab == [] && u.ba == []
    ensures v == u.(ab := U.Resend(u.a, 0))
    ensures Coupled(StepA(s, T1), v) && AllR(v.ab) && v.ab != []
    ensures StepA(s, T1).b == s.b
  {
    v := StepT1Resend(s, u);
    ResendOut(u.a, 0);
    assert v.ab == U.Resend(u.a, 0);
  }

  /** The first REJ acknowledges all seven frames and ends the exchange. */
  lemma AfterRej(s: Sys, u: Shadow)
    requires Coupled(s, u) && u.a.up && |u.a.sent| == 7 && |u.a.txq| == 1
    requires u.ab == [] && u.ba != [] && Rejects(u.ba, 7)
    requires Idle(s.b.conn) && u.b.sent == [] && u.b.r == 7 && u.b.up && s.b.conn.t3
    ensures var t := LoseAll(StepA(s, Deliver)); Stalled(t) && t.b.conn.t3 && FinishesWithin(t, 3, t.a.wrote)
  {
    var v := RejTaken(s, u);
    var t := StepA(s, Deliver);
    LoseAllIs(t);
    EmptyCoupled(t, v);
    WakesFrom(LoseAll(t), v.(ba := []));
  }

  lemma RejTaken(s: Sys, u: Shadow) returns (v: Shadow)
    requires Coupled(s, u) && u.a.up && |u.a.sent| == 7 && |u.a.txq| == 1
    requires u.ab == [] && u.ba != [] && Rejects(u.ba, 7) && u.b.sent == []
    ensures Coupled(StepA(s, Deliver), v) && StepA(s, Deliver).b == s.b
    ensures v.b == u.b && v.a == u.a.(a := 7) && v.ab == [] && u.a.r == 0
  {
    v := StepDeliver(s, u);
    RejOfAll(u.a, u.ba[0]);
    assert u.ab + [] == u.ab;
    NoneReceived(u);
  }

  /** A REJ for the next frame to be sent: there is nothing to resend. */
  lemma RejOfAll(n: U.Node, m: U.Msg)
    requires n.up && m.Sup? && m.rej && m.r == |n.sent|
    ensures U.Handle(n, m) == U.Effect(n.(a := m.r), [])
  {}

  lemma NoneReceived(u: Shadow)
    requires U.Pair(u.a, u.b, u.ab, u.ba) && u.b.sent == []
    ensures u.a.r == 0
  {}

  /** A link at the start of an epoch can be brought to a stall by losing frames alone. The keep-alive of b
      is armed then, and three loss-free rounds end it. */
  lemma StallReached(s: Sys, data: Bytes)
    requires EpochStart(s) && !s.b.conn.t1 && s.a.conn.retries < L.MAX_RETRIES
    requires |L.Chunks(data, s.a.conn.paclen)| == 8
    ensures var t := Schedule(s, data); Stalled(t) && t.b.conn.t3 && FinishesWithin(t, 3, t.a.wrote)
  {
    var u1 := AfterWrite(s, data);
    var u2 := AtB(StepA(s, Write(data)), u1);
    var s2 := Drain(StepA(s, Write(data)), B);
    Lost(s2, u2);
    var u3 := u2.(ba := []);
    var u4 := AfterT1(LoseAll(s2), u3);
    var s4 := StepA(LoseAll(s2), T1);
    SecondDrain(s4, u4);
  }

  lemma SecondDrain(s: Sys, u: Shadow)
    requires Coupled(s, u) && AllR(u.ab) && u.a.up && u.b.up && Idle(s.b.conn)
    requires u.b.sent == [] && u.b.txq == [] && u.b.r == 7 && u.ba == []
    requires |u.a.sent| == 7 && |u.a.txq| == 1 && u.ab == U.Resend(u.a, 0) && u.ab != []
    ensures var t := LoseAll(StepA(Drain(s, B), Deliver));
            Stalled(t) && t.b.conn.t3 && FinishesWithin(t, 3, t.a.wrote)
  {
    FlipCoupled(s, u);
    var w := DrainA(Flip(s), FlipU(u));
    FlipCoupled(Drain(s, B), FlipU(w));
    NothingToAck(Flip(s), FlipU(u));
    IdleDrain(Flip(s));
    ResendDuplicates(u.a, 0, 7);
    FinalRResend(7, u.a, 0);
    DuplicatesRejected(FlipU(u));
    assert w.a.sent + w.a.txq == [];
    AfterRej(Drain(s, B), FlipU(w));
  }

  /** The way out: b's keep-alive poll, delivered, makes a send. */
  lemma KeepAliveHelps(s: Sys)
    requires Stalled(s) && s.b.conn.t3
    ensures var t := StepA(Step(s, B, T3), Deliver);
            |t.a.conn.txq| < |s.a.conn.txq| && t.a.conn.t1
  {
    var poll := L.RR(s.b.conn.vr, true, true);
    var c1 := L.UpdateVa(s.a.conn.(peerBusy := false), poll.nr).(t3 := true);
    L.PumpFrame(if c1.va == c1.vs then c1.(t1 := false) else c1);
  }
}
