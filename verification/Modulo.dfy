/** The connection of module `Link`, whose numbers are taken modulo 8, does what the node of
    module `Unbounded` does, as long as the numbers it meets lie in the windows that the
    two-node invariant guarantees. */
module Modulo {
  import opened Common
  import L = Link
  import U = Unbounded

  /** The frame on the air: every number reduced modulo 8. */
  function Wire(m: U.Msg): L.Msg {
    match m
    case Data(n, r, pf, info) => L.I(n % 8, r % 8, pf, info)
    case Sup(rej, r, pf, command) => if rej then L.REJ(r % 8, pf, command) else L.RR(r % 8, pf, command)
    case Ctl(Ua) => L.UA
    case Ctl(Disc) => L.DISC
    case Ctl(Dm) => L.DM
  }

  function WireAll(ms: seq<U.Msg>): seq<L.Msg> {
    seq(|ms|, i requires 0 <= i < |ms| => Wire(ms[i]))
  }

  lemma WireCons(m: U.Msg, ms: seq<U.Msg>)
    ensures WireAll([m] + ms) == [Wire(m)] + WireAll(ms)
  {}

  lemma WireAllConcat(xs: seq<U.Msg>, ys: seq<U.Msg>)
    ensures WireAll(xs + ys) == WireAll(xs) + WireAll(ys)
  {}

  /** `unacked` has exactly the keys a .. |sent|-1 modulo 8, each holding its own piece. */
  ghost predicate Window(unacked: map<L.SeqNo, L.IMsg>, a: nat, sent: seq<Bytes>)
    requires a <= |sent| <= a + L.WINDOW
  {
    forall k: L.SeqNo ::
      && (k in unacked <==> L.Dist(a % 8, k) < |sent| - a)
      && (k in unacked ==> unacked[k].ns == k && !unacked[k].pf && unacked[k].info == sent[a + L.Dist(a % 8, k)])
  }

  /** Connection `c`, from whose receive queue `taken` has been read, is node `u` modulo 8. */
  ghost predicate Rel(c: L.Conn, taken: Bytes, u: U.Node) {
    && (c.state == L.Connected <==> u.up)
    && c.state != L.AwaitingConnect
    && u.a <= |u.sent| <= u.a + L.WINDOW
    && c.vs == |u.sent| % 8 && c.vr == u.r % 8 && c.va == u.a % 8
    && Window(c.unacked, u.a, u.sent)
    && c.txq == u.txq
    && taken + Flat(c.rxq) == u.got
    && !c.peerBusy
  }

  /** An event took `c` to `e.conn` and `u` to `f.node`, with the same frames sent. */
  ghost predicate Same(e: L.Effect, taken: Bytes, f: U.Effect) {
    Rel(e.conn, taken, f.node) && e.sent == WireAll(f.out)
  }

  lemma DistMod(a: nat, n: nat)
    requires a <= n <= a + 7
    ensures L.Dist(a % 8, n % 8) == n - a
  {}

  lemma NextMod(n: nat)
    ensures L.Next(n % 8) == (n + 1) % 8
  {}

  lemma DistStep(a: nat, k: L.SeqNo)
    ensures L.Dist((a + 1) % 8, k) == if L.Dist(a % 8, k) == 0 then 7 else L.Dist(a % 8, k) - 1
  {}

  // ---- the three loops --------------------------------------------------------------------------

  lemma WindowDrop(m: map<L.SeqNo, L.IMsg>, a: nat, sent: seq<Bytes>)
    requires a < |sent| <= a + L.WINDOW
    requires Window(m, a, sent)
    ensures Window(m - {a % 8}, a + 1, sent)
  {
    forall k: L.SeqNo
      ensures k in m - {a % 8} <==> L.Dist((a + 1) % 8, k) < |sent| - (a + 1)
      ensures k in m - {a % 8} ==> m[k].ns == k && !m[k].pf && m[k].info == sent[a + 1 + L.Dist((a + 1) % 8, k)]
    {
      DistStep(a, k);
    }
  }

  /** The walk of `UpdateVa` drops exactly the newly acknowledged pieces: it makes nr - a steps. */
  lemma {:induction false} DropAckedWindow(m: map<L.SeqNo, L.IMsg>, a: nat, nr: nat, sent: seq<Bytes>)
    requires a <= nr <= |sent| <= a + L.WINDOW
    requires Window(m, a, sent)
    ensures Window(L.DropAcked(m, a % 8, nr % 8), nr, sent)
    ensures L.Dist(a % 8, nr % 8) == nr - a
    decreases nr - a
  {
    DistMod(a, nr);
    if a < nr {
      WindowDrop(m, a, sent);
      DropAckedWindow(m - {a % 8}, a + 1, nr, sent);
      NextMod(a);
    }
  }

  lemma WindowAdd(m: map<L.SeqNo, L.IMsg>, a: nat, sent: seq<Bytes>, nr: L.SeqNo, info: Bytes)
    requires a <= |sent| < a + L.WINDOW
    requires Window(m, a, sent)
    ensures Window(m[|sent| % 8 := L.I(|sent| % 8, nr, false, info)], a, sent + [info])
  {
    DistMod(a, |sent|);
    forall k: L.SeqNo
      ensures L.Dist(a % 8, k) == L.Dist(a % 8, |sent| % 8) ==> k == |sent| % 8
    {}
  }

  lemma PumpStep(c: L.Conn, taken: Bytes, u: U.Node)
    requires Rel(c, taken, u) && u.up && u.txq != [] && |u.sent| < u.a + L.WINDOW
    ensures Rel(L.SendNext(c), taken, u.(sent := u.sent + [u.txq[0]], txq := u.txq[1..]))
  {
    WindowAdd(c.unacked, u.a, u.sent, c.vr, c.txq[0]);
  }

  lemma {:induction false} PumpSame(c: L.Conn, taken: Bytes, u: U.Node)
    requires Rel(c, taken, u)
    ensures Same(L.PumpTx(c), taken, U.Pump(u))
    decreases |c.txq|
  {
    DistMod(u.a, |u.sent|);
    assert L.PumpBlocked(c) <==> !u.up || u.txq == [] || |u.sent| - u.a >= L.WINDOW;
    if !L.PumpBlocked(c) {
      var u1 := u.(sent := u.sent + [u.txq[0]], txq := u.txq[1..]);
      PumpStep(c, taken, u);
      PumpSame(L.SendNext(c), taken, u1);
      WireCons(U.Data(|u.sent|, u.r, false, u.txq[0]), U.Pump(u1).out);
    }
  }

  lemma StoredAt(c: L.Conn, taken: Bytes, u: U.Node, from: nat)
    requires Rel(c, taken, u) && u.a <= from < |u.sent|
    ensures from % 8 in c.unacked && from % 8 != c.vs
    ensures c.unacked[from % 8].info == u.sent[from]
  {
    DistMod(from, |u.sent|);
    DistMod(u.a, from);
  }

  lemma RetransmitStep(c: L.Conn, taken: Bytes, u: U.Node, from: nat)
    requires Rel(c, taken, u) && u.a <= from < |u.sent|
    ensures from % 8 in c.unacked && from % 8 != c.vs
    ensures var m := L.WithNr(c.unacked[from % 8], c.vr);
            && m == Wire(U.Data(from, u.r, false, u.sent[from]))
            && Rel(c.(unacked := c.unacked[from % 8 := m]), taken, u)
  {
    DistMod(from, |u.sent|);
    DistMod(u.a, from);
  }

  /** Retransmission sends exactly the outstanding pieces from `from` on, in order, each with
      its own N(S), P/F and contents and with the current V(R) as N(R). */
  lemma {:induction false} RetransmitSame(c: L.Conn, taken: Bytes, u: U.Node, from: nat)
    requires Rel(c, taken, u) && u.a <= from <= |u.sent|
    ensures Same(L.RetransmitFrom(c, from % 8), taken, U.Effect(u, U.Resend(u, from)))
    decreases |u.sent| - from
  {
    if from < |u.sent| {
      var k := from % 8;
      RetransmitStep(c, taken, u, from);
      var m: L.IMsg := L.WithNr(c.unacked[k], c.vr);
      var c1 := c.(unacked := c.unacked[k := m]);
      NextMod(from);
      RetransmitSame(c1, taken, u, from + 1);
      WireCons(U.Data(from, u.r, false, u.sent[from]), U.Resend(u, from + 1));
    }
  }

  lemma UpdateVaSame(c: L.Conn, taken: Bytes, u: U.Node, nr: nat)
    requires Rel(c, taken, u) && u.a <= nr <= |u.sent|
    ensures Rel(L.UpdateVa(c, nr % 8), taken, u.(a := nr))
  {
    DropAckedWindow(c.unacked, u.a, nr, u.sent);
  }

  lemma AckedThenPumpSame(c: L.Conn, taken: Bytes, u: U.Node)
    requires Rel(c, taken, u)
    ensures Same(L.AckedThenPump(c), taken, U.Pump(u))
  {
    PumpSame(if c.va == c.vs then c.(t1 := false) else c, taken, u);
  }

  // ---- the handlers ----------------------------------------------------------------------------------

  /** Where the numbers of `m` must lie for node `u` to read them right. */
  predicate InWindow(u: U.Node, m: U.Msg) {
    && (U.HasR(m) ==> u.a <= m.r <= |u.sent|)
    && (m.Data? ==> u.r <= m.n + L.WINDOW && m.n < u.r + L.WINDOW)
  }

  lemma NsReadRight(c: L.Conn, taken: Bytes, u: U.Node, m: U.Msg)
    requires Rel(c, taken, u) && m.Data? && InWindow(u, m)
    ensures Wire(m).ns == c.vr <==> m.n == u.r
  {}

  /** Accepting the frame that is next, or not, before the reply and the pump. */
  lemma AcceptSame(c: L.Conn, taken: Bytes, u: U.Node, ok: bool, info: Bytes)
    requires Rel(c, taken, u)
    ensures Rel(if !ok then c else c.(vr := L.Next(c.vr), rxq := if info == [] then c.rxq else c.rxq + [info]),
                taken, if !ok then u else u.(r := u.r + 1, got := u.got + info))
  {
    FlatSnoc(c.rxq, info);
    assert taken + (Flat(c.rxq) + info) == taken + Flat(c.rxq) + info;
  }

  lemma HandleISame(c: L.Conn, taken: Bytes, u: U.Node, m: U.Msg)
    requires Rel(c, taken, u) && m.Data? && InWindow(u, m)
    ensures Same(L.HandleI(c, Wire(m)), taken, U.HandleData(u, m))
  {
    if u.up {
      var w := Wire(m);
      NsReadRight(c, taken, u, m);
      UpdateVaSame(c.(t3 := true), taken, u, m.r);
      var c1 := L.UpdateVa(c.(t3 := true), w.nr);
      AcceptSame(c1, taken, u.(a := m.r), m.n == u.r, m.info);
      var c2 := if w.ns != c.vr then c1
                else c1.(vr := L.Next(c.vr), rxq := if w.info == [] then c.rxq else c.rxq + [w.info]);
      var u2 := if m.n != u.r then u.(a := m.r) else u.(a := m.r, r := u.r + 1, got := u.got + m.info);
      AckedThenPumpSame(c2, taken, u2);
      WireCons(U.Sup(m.n != u.r, u2.r, false, false), U.Pump(u2).out);
    }
  }

  lemma HandleSupSame(c: L.Conn, taken: Bytes, u: U.Node, m: U.Msg)
    requires Rel(c, taken, u) && m.Sup? && InWindow(u, m)
    ensures Same(L.Handle(c, Wire(m)), taken, U.HandleSup(u, m))
  {
    if u.up {
      var u1 := u.(a := m.r);
      if m.rej {
        UpdateVaSame(c, taken, u, m.r);
        RetransmitSame(L.UpdateVa(c, m.r % 8).(t1 := false), taken, u1, m.r);
      } else {
        UpdateVaSame(c.(peerBusy := false), taken, u, m.r);
        AckedThenPumpSame(L.UpdateVa(c.(peerBusy := false), m.r % 8).(t3 := true), taken, u1);
      }
    }
  }

  /** Leaving the connected state, or being left in it, changes no counter and no contents. */
  lemma CloseSame(c: L.Conn, taken: Bytes, u: U.Node, d: L.Conn, up: bool)
    requires Rel(c, taken, u)
    requires d == c.(state := d.state, t1 := d.t1, t3 := d.t3, retries := d.retries, rxq := d.rxq)
    requires d.rxq == c.rxq || d.rxq == c.rxq + [[]]
    requires (d.state == L.Connected <==> up) && d.state != L.AwaitingConnect
    ensures Rel(d, taken, u.(up := up))
  {
    FlatSnoc<byte>(c.rxq, []);
  }

  lemma HandleCtlSame(c: L.Conn, taken: Bytes, u: U.Node, m: U.Msg)
    requires Rel(c, taken, u) && m.Ctl?
    ensures Same(L.Handle(c, Wire(m)), taken, U.Handle(u, m))
  {
    CloseSame(c, taken, u, L.Handle(c, Wire(m)).conn, u.up && m.kind == U.Ua);
  }

  /** A received frame: N(S) and N(R) modulo 8 mean what the unbounded numbers mean. */
  lemma HandleSame(c: L.Conn, taken: Bytes, u: U.Node, m: U.Msg)
    requires Rel(c, taken, u) && InWindow(u, m)
    ensures Same(L.Handle(c, Wire(m)), taken, U.Handle(u, m))
  {
    if m.Data? {
      HandleISame(c, taken, u, m);
      assert Wire(m).I?;
    } else if m.Sup? {
      HandleSupSame(c, taken, u, m);
    } else {
      HandleCtlSame(c, taken, u, m);
    }
  }
}
