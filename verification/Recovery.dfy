/** Progress of the two connected stations once the channels stop losing frames. */
module Recovery {
  import opened Common
  import L = Link
  import U = Unbounded
  import opened Modulo
  import opened Network

  // ---- schedules ---------------------------------------------------------------------------------

  function DeliverN(s: Sys, n: nat): Sys
    decreases n
  {
    if n == 0 then s else DeliverN(StepA(s, Deliver), n - 1)
  }

  /** Everything now in flight towards `side` is delivered, in order, with no loss. */
  function Drain(s: Sys, side: Side): Sys {
    if side == A then DeliverN(s, |s.ba|) else Flip(DeliverN(Flip(s), |s.ab|))
  }

  /** Everything in flight to b is delivered, b's keep-alive runs out, and everything in flight
      back is delivered. */
  function Round(s: Sys): Sys {
    Drain(Step(Drain(s, B), B, T3), A)
  }

  function Rounds(s: Sys, n: nat): Sys
    decreases n
  {
    if n == 0 then s else Rounds(Round(s), n - 1)
  }

  // ---- what a channel full of frames does to its receiver --------------------------------------

  /** V(R) after every frame of `ms` has been received. */
  function FinalR(r: nat, ms: seq<U.Msg>): nat
    decreases |ms|
  {
    if ms == [] then r
    else FinalR(if ms[0].Data? && ms[0].n == r then r + 1 else r, ms[1..])
  }

  lemma {:induction false} FinalRConcat(r: nat, xs: seq<U.Msg>, ys: seq<U.Msg>)
    ensures FinalR(r, xs + ys) == FinalR(FinalR(r, xs), ys)
    decreases |xs|
  {
    if xs == [] {
      assert xs + ys == ys;
    } else {
      assert (xs + ys)[1..] == xs[1..] + ys;
      FinalRConcat(if xs[0].Data? && xs[0].n == r then r + 1 else r, xs[1..], ys);
    }
  }

  lemma {:induction false} FinalRBounds(r: nat, ms: seq<U.Msg>, top: nat)
    requires r <= top
    requires forall i :: 0 <= i < |ms| && ms[i].Data? ==> ms[i].n < top
    ensures r <= FinalR(r, ms) <= top
    decreases |ms|
  {
    if ms != [] {
      assert forall i :: 0 <= i < |ms[1..]| ==> ms[1..][i] == ms[i + 1];
      FinalRBounds(if ms[0].Data? && ms[0].n == r then r + 1 else r, ms[1..], top);
    }
  }

  /** Frames from..V(S)-1 sent in order bring a receiver that has all before `from` up to V(S). */
  lemma {:induction false} FinalRResend(r: nat, u: U.Node, from: nat)
    requires from <= r <= |u.sent|
    ensures FinalR(r, U.Resend(u, from)) == |u.sent|
    decreases |u.sent| - from
  {
    if from < |u.sent| {
      assert U.Resend(u, from)[1..] == U.Resend(u, from + 1);
      FinalRResend(if from == r then r + 1 else r, u, from + 1);
    }
  }

  lemma {:induction false} FinalRPump(u: U.Node)
    ensures FinalR(|u.sent|, U.Pump(u).out) == |U.Pump(u).node.sent|
    decreases |u.txq|
  {
    if !(!u.up || u.txq == [] || |u.sent| - u.a >= U.WINDOW) {
      var u1 := u.(sent := u.sent + [u.txq[0]], txq := u.txq[1..]);
      FinalRPump(u1);
      assert U.Pump(u).out[1..] == U.Pump(u1).out;
    }
  }

  // ---- what a connected node sends -----------------------------------------------------------------

  /** No U frame among them. */
  ghost predicate AllR(ms: seq<U.Msg>) {
    forall i :: 0 <= i < |ms| ==> U.HasR(ms[i])
  }

  ghost predicate AllAt(ms: seq<U.Msg>, r: nat) {
    forall i :: 0 <= i < |ms| ==> U.HasR(ms[i]) && ms[i].r == r
  }

  ghost predicate HasData(ms: seq<U.Msg>) {
    exists i :: 0 <= i < |ms| && ms[i].Data?
  }

  lemma {:induction false} PumpOut(u: U.Node)
    ensures AllAt(U.Pump(u).out, u.r)
    ensures var v := U.Pump(u).node;
            && v == u.(sent := v.sent, txq := v.txq)
            && v.sent + v.txq == u.sent + u.txq
            && |u.sent| <= |v.sent|
            && (!v.up || v.txq == [] || |v.sent| - v.a >= U.WINDOW)
    ensures |U.Pump(u).node.sent| > |u.sent| ==> HasData(U.Pump(u).out)
    decreases |u.txq|
  {
    if !(!u.up || u.txq == [] || |u.sent| - u.a >= U.WINDOW) {
      var u1 := u.(sent := u.sent + [u.txq[0]], txq := u.txq[1..]);
      PumpOut(u1);
      assert u1.sent + u1.txq == u.sent + u.txq;
      assert U.Pump(u).out[0].Data?;
    }
  }

  lemma {:induction false} ResendOut(u: U.Node, from: nat)
    ensures AllAt(U.Resend(u, from), u.r)
    ensures from < |u.sent| ==> HasData(U.Resend(u, from))
    decreases |u.sent| - from
  {
    if from < |u.sent| {
      ResendOut(u, from + 1);
      assert U.Resend(u, from)[0].Data?;
    }
  }

  /** A numbered frame at a connected node: it believes the receive number, every reply carries the
      new V(R), a data frame is always replied to, and what it sends keeps a receiver that
      would reach V(S) reaching V(S). */
  ghost predicate Reaction(u: U.Node, m: U.Msg, f: U.Effect)
    requires U.HasR(m)
  {
    && f.node.sent + f.node.txq == u.sent + u.txq
    && f.node.up && f.node.a == m.r
    && f.node.r == (if m.Data? && m.n == u.r then u.r + 1 else u.r)
    && AllAt(f.out, f.node.r)
    && (m.Data? ==> f.out != [])
    && (|f.node.sent| > |u.sent| ==> HasData(f.out))
    && |f.node.sent| >= |u.sent|
    && (!(m.Sup? && m.rej) ==> f.node.txq == [] || |f.node.sent| - f.node.a >= U.WINDOW)
    && FinalR(|u.sent|, f.out) == |f.node.sent|
  }

  lemma HandleReacts(u: U.Node, m: U.Msg)
    requires u.up && U.HasR(m) && m.r <= |u.sent|
    ensures Reaction(u, m, U.Handle(u, m))
  {
    if m.Data? {
      DataReacts(u, m, if m.n != u.r then u.(a := m.r) else u.(a := m.r, r := u.r + 1, got := u.got + m.info));
    } else {
      var u1 := u.(a := m.r);
      if m.rej {
        ResendOut(u1, m.r);
        FinalRResend(|u.sent|, u1, m.r);
      } else {
        PumpOut(u1);
        FinalRPump(u1);
      }
    }
  }

  /** `u2` has read the data frame, and answers before it pumps. */
  lemma DataReacts(u: U.Node, m: U.Msg, u2: U.Node)
    requires u.up && m.Data?
    requires u2 == if m.n != u.r then u.(a := m.r) else u.(a := m.r, r := u.r + 1, got := u.got + m.info)
    ensures Reaction(u, m, U.Handle(u, m))
  {
    var reply := U.Sup(m.n != u.r, u2.r, false, false);
    var pumped := U.Pump(u2);
    PumpOut(u2);
    FinalRPump(u2);
    HasDataConcat([reply], pumped.out);
    FinalRConcat(|u.sent|, [reply], pumped.out);
    assert FinalR(|u.sent|, [reply]) == |u.sent| by { assert [reply][1..] == []; }
  }

  // ---- draining a channel -------------------------------------------------------------------------------

  /** The last frame of the channel carries receive number `r`. */
  ghost predicate Told(ms: seq<U.Msg>, r: nat) {
    ms != [] && U.HasR(ms[|ms| - 1]) && ms[|ms| - 1].r == r
  }

  /** What draining `ba` at a leaves behind, as seen from the start `u` and the end `v`. */
  ghost predicate Drained(u: Shadow, t: Sys, v: Shadow)
    requires AllR(u.ba)
  {
    DrainedNode(u, v) && DrainedOut(u, t, v)
  }

  /** The node itself. */
  ghost predicate DrainedNode(u: Shadow, v: Shadow)
    requires AllR(u.ba)
  {
    && v.a.up && v.b == u.b && v.ba == []
    && v.a.r == FinalR(u.a.r, u.ba)
    && v.a.a == (if u.ba == [] then u.a.a else u.ba[|u.ba| - 1].r)
    && v.a.sent + v.a.txq == u.a.sent + u.a.txq
    && |v.a.sent| >= |u.a.sent|
    && (u.ba != [] && u.ba[|u.ba| - 1].Sup? && !u.ba[|u.ba| - 1].rej ==>
          v.a.txq == [] || |v.a.sent| - v.a.a >= U.WINDOW)
  }

  /** What it has put on its own channel, and its keep-alive timer. */
  ghost predicate DrainedOut(u: Shadow, t: Sys, v: Shadow) {
    && (AllR(u.ab) ==> AllR(v.ab))
    && (HasData(u.ab) || |v.a.sent| > |u.a.sent| ==> HasData(v.ab))
    && (HasData(u.ba) || Told(u.ab, u.a.r) ==> Told(v.ab, v.a.r))
    && (HasData(u.ba) ==> t.a.conn.t3)
    && (FinalR(u.b.r, u.ab) == |u.a.sent| ==> FinalR(v.b.r, v.ab) == |v.a.sent|)
  }

  /** Delivery never turns T3 off at a station that stays connected. */
  lemma T3Stays(c: L.Conn, m: L.Msg)
    requires c.state == L.Connected && (m.I? || m.RR? || m.REJ?)
    ensures c.t3 || m.I? ==> L.Handle(c, m).conn.t3
  {
    if m.I? {
      var d := L.Received(c, m);
      L.PumpFrame(if d.va == d.vs then d.(t1 := false) else d);
    } else if m.RR? {
      var c1 := L.UpdateVa(c.(peerBusy := false), m.nr).(t3 := true);
      L.PumpFrame(if c1.va == c1.vs then c1.(t1 := false) else c1);
    } else {
      L.RetransmitFrame(L.UpdateVa(c, m.nr).(t1 := false), m.nr);
    }
  }

  lemma HasDataConcat(xs: seq<U.Msg>, ys: seq<U.Msg>)
    ensures HasData(xs + ys) <==> HasData(xs) || HasData(ys)
  {
    if HasData(xs) {
      var i :| 0 <= i < |xs| && xs[i].Data?;
      assert (xs + ys)[i].Data?;
    }
    if HasData(ys) {
      var i :| 0 <= i < |ys| && ys[i].Data?;
      assert (xs + ys)[|xs| + i].Data?;
    }
  }

  /** One delivery at a connected station. */
  lemma DeliverReacts(s: Sys, u: Shadow) returns (u1: Shadow)
    requires Coupled(s, u) && s.ba != [] && u.a.up && U.HasR(u.ba[0])
    ensures Coupled(StepA(s, Deliver), u1)
    ensures var f := U.Handle(u.a, u.ba[0]);
            Reaction(u.a, u.ba[0], f) && u1 == Shadow(f.node, u.b, u.ab + f.out, u.ba[1..])
    ensures s.a.conn.t3 || u.ba[0].Data? ==> StepA(s, Deliver).a.conn.t3
    ensures var t := StepA(s, Deliver); t.a.wrote == s.a.wrote && t.b == s.b && t.ba == s.ba[1..]
  {
    u1 := StepDeliver(s, u);
    HeadInWindow(u);
    HandleReacts(u.a, u.ba[0]);
    assert s.ba[0] == Wire(u.ba[0]);
    T3Stays(s.a.conn, s.ba[0]);
  }

  /** Draining `ba` in the shadow. */
  function DrainU(u: Shadow): Shadow
    decreases |u.ba|
  {
    if u.ba == [] then u else
      var f := U.Handle(u.a, u.ba[0]);
      DrainU(Shadow(f.node, u.b, u.ab + f.out, u.ba[1..]))
  }

  lemma {:induction false} DrainA(s: Sys, u: Shadow) returns (v: Shadow)
    requires Coupled(s, u) && u.a.up && AllR(u.ba)
    ensures v == DrainU(u) && DrainedTo(s, u, DeliverN(s, |s.ba|), v)
    decreases |s.ba|
  {
    if s.ba == [] {
      v := u;
      DrainedNothing(u, s);
    } else {
      var u1 := DeliverReacts(s, u);
      v := DrainA(StepA(s, Deliver), u1);
      DrainMore(s, u, u1, DeliverN(StepA(s, Deliver), |s.ba| - 1), v);
    }
  }

  /** Everything said of a drain at a from `s` and `u` to `t` and `v`. */
  ghost predicate DrainedTo(s: Sys, u: Shadow, t: Sys, v: Shadow)
    requires AllR(u.ba)
  {
    && Coupled(t, v) && Drained(u, t, v)
    && (s.a.conn.t3 ==> t.a.conn.t3) && t.a.wrote == s.a.wrote && t.b == s.b
  }

  lemma DrainMore(s: Sys, u: Shadow, u1: Shadow, t: Sys, v: Shadow)
    requires u.ba != [] && AllR(u.ba) && AllR(u1.ba)
    requires var f := U.Handle(u.a, u.ba[0]);
             Reaction(u.a, u.ba[0], f) && u1 == Shadow(f.node, u.b, u.ab + f.out, u.ba[1..])
    requires var d := StepA(s, Deliver); d.a.wrote == s.a.wrote && d.b == s.b
    requires s.a.conn.t3 || u.ba[0].Data? ==> StepA(s, Deliver).a.conn.t3
    requires DrainedTo(StepA(s, Deliver), u1, t, v)
    ensures DrainedTo(s, u, t, v)
  {
    DrainStep(u, u1, u.ba[0], t, v);
  }

  lemma DrainedNothing(u: Shadow, t: Sys)
    requires u.a.up && u.ba == []
    ensures Drained(u, t, u)
  {}

  /** One delivery in front of a drain. */
  lemma DrainStep(u: Shadow, u1: Shadow, m: U.Msg, t: Sys, v: Shadow)
    requires u.ba != [] && m == u.ba[0] && AllR(u.ba)
    requires var f := U.Handle(u.a, m);
             Reaction(u.a, m, f) && u1 == Shadow(f.node, u.b, u.ab + f.out, u.ba[1..])
    requires AllR(u1.ba) && Drained(u1, t, v)
    requires m.Data? ==> t.a.conn.t3
    ensures Drained(u, t, v)
  {
    var f := U.Handle(u.a, m);
    if |u.ba| > 1 { assert u.ba[1..][|u.ba| - 2] == u.ba[|u.ba| - 1]; }
    StepOut(u, u1, m, f, t, v);
  }

  lemma StepOut(u: Shadow, u1: Shadow, m: U.Msg, f: U.Effect, t: Sys, v: Shadow)
    requires u.ba != [] && m == u.ba[0] && U.HasR(m) && Reaction(u.a, m, f)
    requires u1 == Shadow(f.node, u.b, u.ab + f.out, u.ba[1..])
    requires |v.a.sent| >= |u1.a.sent| && v.b == u.b && DrainedOut(u1, t, v)
    requires m.Data? ==> t.a.conn.t3
    ensures DrainedOut(u, t, v)
  {
    HasDataConcat([m], u.ba[1..]);
    assert u.ba == [m] + u.ba[1..];
    HasDataConcat(u.ab, f.out);
    FinalRConcat(u.b.r, u.ab, f.out);
    assert f.out != [] ==> Told(u1.ab, u1.a.r);
    assert f.out == [] ==> u1.ab == u.ab;
  }

  // ---- recovery ---------------------------------------------------------------------------------------

  /** Both ends connected and nothing but numbered frames in flight. */
  ghost predicate Quiet(s: Sys, u: Shadow) {
    Coupled(s, u) && u.a.up && u.b.up && AllR(u.ab) && AllR(u.ba)
  }

  /** b reaches V(S) of a on what is in flight, which includes data if a waits for an acknowledgement. */
  ghost predicate Flowing(s: Sys, u: Shadow) {
    && Quiet(s, u)
    && FinalR(u.b.r, u.ab) == |u.a.sent|
    && (u.a.a < |u.a.sent| ==> HasData(u.ab))
    && (u.a.txq != [] ==> u.a.a < |u.a.sent|)
  }

  /** Draining the channel to b makes b reach V(S) and say so last. */
  lemma DrainB(s: Sys, u: Shadow) returns (v: Shadow)
    requires Flowing(s, u) && HasData(u.ab)
    ensures var t := Drain(s, B);
            && Quiet(t, v) && v.a == u.a && v.ab == []
            && v.b.r == |u.a.sent| && Told(v.ba, |u.a.sent|)
            && t.b.conn.t3 && t.a == s.a && t.b.wrote == s.b.wrote
  {
    FlipCoupled(s, u);
    var w := DrainA(Flip(s), FlipU(u));
    v := FlipU(w);
    FlipCoupled(Drain(s, B), v);
  }

  /** T1 at a: everything outstanding is put on the air once more, in order. */
  lemma ResendFlows(s: Sys, u: Shadow) returns (v: Shadow)
    requires Quiet(s, u) && s.a.conn.va != s.a.conn.vs && s.a.conn.retries < L.MAX_RETRIES
    ensures s.a.conn.t1
    ensures Flowing(StepA(s, T1), v) && HasData(v.ab) && v.a == u.a && v.b == u.b
    ensures StepA(s, T1).a.wrote == s.a.wrote
  {
    InFlight(s, u);
    v := StepT1Resend(s, u);
    ResentReaches(u.a, u.b.r, u.ab);
    T1Wrote(s);
  }

  /** What coupling says of the frames on their way to b. */
  lemma InFlight(s: Sys, u: Shadow)
    requires Quiet(s, u) && s.a.conn.va != s.a.conn.vs
    ensures s.a.conn.t1 && u.a.a < |u.a.sent| && u.a.a <= u.b.r <= |u.a.sent|
    ensures forall i :: 0 <= i < |u.ab| && u.ab[i].Data? ==> u.ab[i].n < |u.a.sent|
  {}

  lemma T1Wrote(s: Sys)
    requires s.a.conn.t1
    ensures StepA(s, T1).a.wrote == s.a.wrote
  {}

  /** With the frames sent again behind what is in flight, b reaches V(S) of a. */
  lemma ResentReaches(a: U.Node, r: nat, ab: seq<U.Msg>)
    requires a.a <= r <= |a.sent| && a.a < |a.sent| && AllR(ab)
    requires forall i :: 0 <= i < |ab| && ab[i].Data? ==> ab[i].n < |a.sent|
    ensures FinalR(r, ab + U.Resend(a, a.a)) == |a.sent|
    ensures HasData(ab + U.Resend(a, a.a)) && AllR(ab + U.Resend(a, a.a))
  {
    var again := U.Resend(a, a.a);
    ResendOut(a, a.a);
    HasDataConcat(ab, again);
    FinalRBounds(r, ab, |a.sent|);
    FinalRResend(FinalR(r, ab), a, a.a);
    FinalRConcat(r, ab, again);
  }

  /** Delivery of everything one way and then of everything back acknowledges all that was outstanding. */
  lemma DrainBoth(s: Sys, u: Shadow) returns (v: Shadow)
    requires Flowing(s, u) && HasData(u.ab)
    ensures Coupled(Drain(Drain(s, B), A), v)
    ensures v.a.a == |u.a.sent| && v.a.sent + v.a.txq == u.a.sent + u.a.txq
  {
    var w := DrainB(s, u);
    v := DrainA(Drain(s, B), w);
  }

  /** A round acknowledges what was outstanding and then either empties the queue or fills the window. */
  lemma RoundFlows(s: Sys, u: Shadow) returns (v: Shadow)
    requires Flowing(s, u) && u.a.a < |u.a.sent|
    ensures Flowing(Round(s), v) && Round(s).a.wrote == s.a.wrote
    ensures v.a.a == |u.a.sent|
    ensures v.a.txq == [] || |v.a.txq| < |u.a.txq|
    ensures u.a.txq == [] ==> v.a.a == |v.a.sent|
  {
    var u1 := DrainB(s, u);
    v := RoundEnds(Drain(s, B), u1);
  }

  /** The end of a round, when b has reached V(S): the keep-alive of b acknowledges everything, and a goes on. */
  lemma RoundEnds(s: Sys, u: Shadow) returns (v: Shadow)
    requires Quiet(s, u) && u.ab == [] && u.b.r == |u.a.sent| && s.b.conn.t3
    ensures var t := Drain(Step(s, B, T3), A); Flowing(t, v) && t.a.wrote == s.a.wrote
    ensures v.a.a == |u.a.sent|
    ensures v.a.txq == [] || |v.a.txq| < |u.a.txq|
    ensures u.a.txq == [] ==> v.a.a == |v.a.sent|
  {
    var u2 := KeepAlive(s, u);
    v := DrainA(Step(s, B, T3), u2);
    SameTotal(v.a.sent, v.a.txq, u.a.sent, u.a.txq);
  }

  lemma SameTotal<T>(a: seq<T>, b: seq<T>, c: seq<T>, d: seq<T>)
    requires a + b == c + d
    ensures |a| + |b| == |c| + |d|
  {
    assert |a + b| == |c + d|;
  }

  /** The keep-alive of b polls with the current V(R). */
  lemma KeepAlive(s: Sys, u: Shadow) returns (v: Shadow)
    requires Quiet(s, u) && s.b.conn.t3
    ensures var t := Step(s, B, T3); Quiet(t, v) && t.a == s.a
    ensures v == u.(ba := u.ba + [U.Sup(false, u.b.r, true, true)])
  {
    FlipCoupled(s, u);
    var w := StepT3(Flip(s), FlipU(u));
    v := FlipU(w);
    FlipCoupled(Step(s, B, T3), v);
  }

  /** Nothing outstanding and nothing queued at a. */
  predicate Empty(u: Shadow) { u.a.txq == [] && u.a.a == |u.a.sent| }

  lemma RoundsFinishNow(s: Sys, u: Shadow)
    requires Flowing(s, u) && u.a.a >= |u.a.sent|
    ensures Empty(u) && Coupled(s, u)
  {}

  lemma {:induction false} RoundsFinish(s: Sys, u: Shadow, n: nat) returns (k: nat, v: Shadow)
    requires Flowing(s, u) && |u.a.txq| < n
    ensures k <= n && Empty(v) && Coupled(Rounds(s, k), v) && Rounds(s, k).a.wrote == s.a.wrote
    decreases n, 0
  {
    RoundsMore(s, 0);
    if u.a.a >= |u.a.sent| {
      RoundsFinishNow(s, u);
      k, v := 0, u;
    } else {
      var w := RoundFlows(s, u);
      k, v := RoundsGoOn(Round(s), w, n - 1);
      RoundsMore(s, k);
      k := k + 1;
    }
  }

  /** After the first round: done, or with a shorter queue. */
  lemma {:induction false} RoundsGoOn(s: Sys, u: Shadow, n: nat) returns (k: nat, v: Shadow)
    requires Flowing(s, u) && (|u.a.txq| < n || u.a.a == |u.a.sent|)
    ensures k <= n && Empty(v) && Coupled(Rounds(s, k), v) && Rounds(s, k).a.wrote == s.a.wrote
    decreases n, 1
  {
    if u.a.a == |u.a.sent| {
      RoundsMore(s, 0);
      RoundsFinishNow(s, u);
      k, v := 0, u;
    } else {
      k, v := RoundsFinish(s, u, n);
    }
  }

  lemma RoundsMore(s: Sys, k: nat)
    ensures Rounds(s, k + 1) == Rounds(Round(s), k)
    ensures Rounds(s, 0) == s
  {}

  // ---- the theorems, without shadow ----------------------------------------------------------------------

  /** Both ends connected, a waiting with a retry left. */
  predicate MayRecover(s: Sys) {
    && s.a.conn.state == L.Connected && s.b.conn.state == L.Connected
    && s.a.conn.va != s.a.conn.vs && s.a.conn.retries < L.MAX_RETRIES
  }

  lemma NumberedAllR(ms: seq<U.Msg>)
    requires Numbered(WireAll(ms))
    ensures AllR(ms)
  {
    forall i | 0 <= i < |ms| ensures U.HasR(ms[i]) {
      assert WireAll(ms)[i] == Wire(ms[i]);
    }
  }

  lemma ReachedQuiet(s0: Sys, acts: seq<(Side, Act)>) returns (u: Shadow)
    requires EpochStart(s0)
    requires Run(s0, acts).a.conn.state == L.Connected && Run(s0, acts).b.conn.state == L.Connected
    ensures Quiet(Run(s0, acts), u)
  {
    var v := StartCoupled(s0);
    u := RunCoupled(s0, v, acts);
    ConnectedIsNumbered(s0, acts);
    NumberedAllR(u.ab);
    NumberedAllR(u.ba);
  }

  lemma RecoversFrom(s: Sys, u: Shadow)
    requires Quiet(s, u) && s.a.conn.va != s.a.conn.vs && s.a.conn.retries < L.MAX_RETRIES
    ensures s.a.conn.t1
    ensures var c := Drain(Drain(StepA(s, T1), B), A).a.conn;
            Outstanding(c, c.va) + c.txq == s.a.conn.txq
  {
    var u1 := ResendFlows(s, u);
    var v := DrainBoth(StepA(s, T1), u1);
    var t := Drain(Drain(StepA(s, T1), B), A);
    QueueIsRest(t, v, s, u);
  }

  lemma QueueIsRest(t: Sys, v: Shadow, s: Sys, u: Shadow)
    requires Rel(s.a.conn, s.a.taken, u.a) && Rel(t.a.conn, t.a.taken, v.a)
    requires v.a.a == |u.a.sent| && v.a.sent + v.a.txq == u.a.sent + u.a.txq
    ensures Outstanding(t.a.conn, t.a.conn.va) + t.a.conn.txq == s.a.conn.txq
  {
    var n := |u.a.sent|;
    OutstandingIs(t.a.conn, t.a.taken, v.a, n);
    assert v.a.sent[n..] + v.a.txq == (v.a.sent + v.a.txq)[n..];
    assert (u.a.sent + u.a.txq)[n..] == u.a.txq;
  }

  /** No deadlock: T1 is running, and if it runs out and then everything in flight is delivered, first
      one way and then back, every frame outstanding before is acknowledged: what is still
      unacknowledged is what was in the queue. */
  lemma Recovers(s0: Sys, acts: seq<(Side, Act)>)
    requires EpochStart(s0) && MayRecover(Run(s0, acts))
    ensures var s := Run(s0, acts);
            var c := Drain(Drain(StepA(s, T1), B), A).a.conn;
            s.a.conn.t1 && Outstanding(c, c.va) + c.txq == s.a.conn.txq
  {
    var u := ReachedQuiet(s0, acts);
    RecoversFrom(Run(s0, acts), u);
  }

  /** b has received exactly the pieces `wrote`, and a has nothing outstanding and nothing queued. */
  predicate AllDone(t: Sys, wrote: seq<Bytes>) {
    && Delivered(t.b) == Flat(wrote)
    && t.a.wrote == wrote
    && t.a.conn.va == t.a.conn.vs && t.a.conn.txq == []
  }

  lemma EmptyAllDone(t: Sys, v: Shadow)
    requires Coupled(t, v) && Empty(v)
    ensures AllDone(t, t.a.wrote)
  {
    assert v.a.sent + v.a.txq == v.a.sent;
    assert v.a.sent[..v.b.r] == v.a.sent;
  }

  /** At most `n` rounds from `s` until everything is delivered, acknowledged and off the queue. */
  ghost predicate FinishesWithin(s: Sys, n: nat, wrote: seq<Bytes>) {
    exists k: nat :: k <= n && AllDone(Rounds(s, k), wrote)
  }

  lemma DeliversAllFrom(s: Sys, u: Shadow)
    requires Quiet(s, u) && s.a.conn.va != s.a.conn.vs && s.a.conn.retries < L.MAX_RETRIES
    ensures FinishesWithin(StepA(s, T1), |s.a.conn.txq| + 1, s.a.wrote)
  {
    var u1 := ResendFlows(s, u);
    var k, v := RoundsFinish(StepA(s, T1), u1, |u.a.txq| + 1);
    EmptyAllDone(Rounds(StepA(s, T1), k), v);
  }

  /** Progress: after that expiry some number of loss-free rounds delivers everything ever written
      to a, acknowledges it and leaves nothing queued. */
  lemma DeliversAll(s0: Sys, acts: seq<(Side, Act)>)
    requires EpochStart(s0) && MayRecover(Run(s0, acts))
    ensures var s := Run(s0, acts);
            FinishesWithin(StepA(s, T1), |s.a.conn.txq| + 1, s.a.wrote)
  {
    var u := ReachedQuiet(s0, acts);
    DeliversAllFrom(Run(s0, acts), u);
  }

  /** With everything acknowledged, b has all that a has sent; what is in flight cannot change that. */
  lemma DrainIdle(s: Sys, u: Shadow) returns (v: Shadow)
    requires Quiet(s, u) && u.a.a == |u.a.sent| && s.b.conn.t3
    ensures var t := Drain(s, B);
            && Quiet(t, v) && v.a == u.a && v.ab == [] && v.b.r == |u.a.sent|
            && t.b.conn.t3 && t.a == s.a
  {
    FlipCoupled(s, u);
    var w := DrainA(Flip(s), FlipU(u));
    v := FlipU(w);
    FlipCoupled(Drain(s, B), v);
    FinalRBounds(u.b.r, u.ab, |u.a.sent|);
  }

  /** Both ends connected, a with nothing outstanding, b's keep-alive armed. */
  predicate MayWake(s: Sys) {
    && s.a.conn.state == L.Connected && s.b.conn.state == L.Connected
    && s.a.conn.va == s.a.conn.vs && s.b.conn.t3
  }

  lemma WakesFrom(s: Sys, u: Shadow)
    requires Quiet(s, u) && s.a.conn.va == s.a.conn.vs && s.b.conn.t3
    ensures FinishesWithin(s, |s.a.conn.txq| + 2, s.a.wrote)
  {
    DistMod(u.a.a, |u.a.sent|);
    var u1 := DrainIdle(s, u);
    var u2 := RoundEnds(Drain(s, B), u1);
    var k, v := RoundsFinish(Round(s), u2, |u.a.txq| + 1);
    EmptyAllDone(Rounds(Round(s), k), v);
    assert Rounds(s, k + 1) == Rounds(Round(s), k);
  }

  /** Progress without T1: with nothing outstanding a has no timer of its own for what is queued, but the
      keep-alive of b brings it out: at most |queue| + 2 loss-free rounds deliver everything ever written. */
  lemma KeepAliveDelivers(s0: Sys, acts: seq<(Side, Act)>)
    requires EpochStart(s0) && MayWake(Run(s0, acts))
    ensures var s := Run(s0, acts); FinishesWithin(s, |s.a.conn.txq| + 2, s.a.wrote)
  {
    var u := ReachedQuiet(s0, acts);
    WakesFrom(Run(s0, acts), u);
  }
}
