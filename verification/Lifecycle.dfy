/** How links begin and end: the handshakes between two stations, what a station does when its peer is
    silent, gone or busy, and what reaches the session. */
module Lifecycle {
  import opened Common
  import opened Link
  import opened Timers

  // ---- two stations --------------------------------------------------------------------------------

  /** Frames delivered one by one, in order; what is sent in answer. */
  function Deliver(c: Conn, ms: seq<Msg>): Effect
    decreases |ms|
  {
    if ms == [] then Effect(c, [])
    else
      var now := Handle(c, ms[0]);
      var later := Deliver(now.conn, ms[1..]);
      Effect(later.conn, now.sent + later.sent)
  }

  /** A call by a, its frames delivered to b, the answer to a, and what a then sends. */
  datatype Exchange = Exchange(a: Conn, b: Conn, answer: seq<Msg>, more: seq<Msg>)

  function Exchanged(a: Conn, b: Conn, call: Event): Exchange {
    var out := Happens(a, call);
    var at := Deliver(b, out.sent);
    var back := Deliver(out.conn, at.sent);
    Exchange(back.conn, at.conn, at.sent, back.sent)
  }

  lemma DeliverOne(c: Conn, m: Msg)
    ensures Deliver(c, [m]) == Handle(c, m)
  {
    assert [m][1..] == [];
    var now := Handle(c, m);
    assert now.sent + [] == now.sent;
  }

  /** Nothing runs, and the reader finds the end marker last. */
  predicate Over(c: Conn) {
    c.state == Disconnected && !c.t1 && !c.t3 && c.rxq != [] && c.rxq[|c.rxq| - 1] == []
  }

  /** A release ends the link at both ends, whatever b was doing: two frames, and both readers are woken. */
  lemma ReleaseHandshake(a: Conn, b: Conn)
    requires Safe(a) && (a.state == Connected || a.state == AwaitingConnect)
    ensures var x := Exchanged(a, b, DoDisconnect);
            && Over(x.a) && Over(x.b) && x.answer == [UA] && x.more == []
            && x.a.rxq == a.rxq + [[]] && x.b.rxq == b.rxq + [[]]
            && x.a.txq == a.txq && x.b.txq == b.txq
  {
    DeliverOne(b, DISC);
    DeliverOne(Disconnect(a).conn, UA);
  }

  /** A station that is releasing is done with UA, DM or DISC, and with no other frame. */
  lemma ReleaseEnds(c: Conn, m: Msg)
    requires Safe(c) && c.state == AwaitingRelease && m != SABM
    ensures m == UA || m == DM || m == DISC <==> Handle(c, m).conn.state == Disconnected
    ensures m == UA || m == DM || m == DISC ==> Over(Handle(c, m).conn) && Handle(c, m).conn.rxq == c.rxq + [[]]
    ensures m != UA && m != DM && m != DISC ==> Handle(c, m).conn == c.(rxq := Handle(c, m).conn.rxq)
  {}

  /** All counters at zero, nothing outstanding, T3 running and the peer free to receive. */
  predicate NewEpoch(c: Conn) {
    && c.state == Connected && c.vr == 0 && c.retries == 0 && c.t3 && !c.peerBusy
  }

  /** A connect opens a new epoch at both ends, whatever b was doing: b keeps its queues and forgets what was
      outstanding; a sends what it had queued, as far as the window allows. */
  lemma ConnectHandshake(a: Conn, b: Conn)
    requires Safe(a) && a.state == Disconnected
    ensures var x := Exchanged(a, b, DoConnect);
            && x.answer == [UA]
            && NewEpoch(x.b) && x.b.vs == x.b.va == 0 && x.b.unacked == map[]
            && x.b.txq == b.txq && x.b.rxq == b.rxq && x.b.t1 == b.t1
            && NewEpoch(x.a) && x.a.va == 0 && x.a.rxq == a.rxq && (a.txq == [] ==> !x.a.t1)
            && Infos(x.more) + x.a.txq == a.txq && (x.a.txq == [] || x.a.vs == 7)
  {
    DeliverOne(b, SABM);
    DeliverOne(Connect(a).conn, UA);
    var c := ResetCounters(Connect(a).conn).(t1 := false, state := Connected, t3 := true);
    PumpInfos(c);
  }

  /** The information of the I frames among `ms`, in order. */
  function Infos(ms: seq<Msg>): seq<Bytes> {
    if ms == [] then [] else (if ms[0].I? then [ms[0].info] else []) + Infos(ms[1..])
  }

  lemma {:induction false} PumpInfos(c: Conn)
    requires c.state == Connected && !c.peerBusy && c.va == 0 && c.vs <= WINDOW
    ensures var e := PumpTx(c);
            && Infos(e.sent) + e.conn.txq == c.txq
            && (e.conn.txq == [] || e.conn.vs == 7)
            && e.conn == c.(vs := e.conn.vs, unacked := e.conn.unacked, txq := e.conn.txq, t1 := e.conn.t1)
            && (c.txq == [] ==> e.conn.t1 == c.t1)
    decreases |c.txq|
  {
    if !PumpBlocked(c) {
      var rest := PumpTx(SendNext(c));
      PumpInfos(SendNext(c));
      assert PumpTx(c).sent[1..] == rest.sent;
      assert c.txq == [c.txq[0]] + c.txq[1..];
    }
  }

  /** A refused connect: DM ends it, and the reader is woken. */
  lemma RefusedConnect(c: Conn)
    requires Safe(c) && c.state == Disconnected
    ensures var e := Deliver(Connect(c).conn, [DM]);
            Over(e.conn) && e.sent == [] && e.conn.rxq == c.rxq + [[]]
  {
    DeliverOne(Connect(c).conn, DM);
  }

  // ---- a silent peer -------------------------------------------------------------------------------

  function Times(m: Msg, n: nat): seq<Msg> { seq(n, i => m) }

  /** All frames sent in a run. */
  function SentIn(c: Conn, es: seq<Event>): seq<Msg>
    decreases |es|
  {
    if es == [] then [] else Happens(c, es[0]).sent + SentIn(Apply(c, es[0]), es[1..])
  }

  lemma TimesMore(m: Msg, n: nat)
    ensures [m] + Times(m, n) == Times(m, n + 1)
  {}

  /** What is asked again, and what the reader is told in the end. */
  function Asked(c: Conn): Msg { if c.state == AwaitingConnect then SABM else DISC }

  function Marker(c: Conn): seq<Bytes> { if c.state == AwaitingConnect then [] else [[]] }

  /** Expiries, and writes that come too early or too late. */
  predicate Unheard(e: Event) { IsTimer(e) || e.DoWrite? }

  lemma {:induction false} NothingMore(c: Conn, es: seq<Event>)
    requires c.state == Disconnected && !c.t1 && !c.t3
    requires forall e :: e in es ==> Unheard(e)
    ensures Run(c, es) == c && SentIn(c, es) == []
    decreases |es|
  {
    if es != [] {
      assert es[0] in es;
      NothingMore(c, es[1..]);
    }
  }

  /** A connect or a release that is never answered: one more SABM or DISC at every expiry up to the tenth
      retry, then nothing. The end of a release wakes the reader; the end of a connect does not. */
  lemma {:induction false} Attempts(c: Conn, es: seq<Event>)
    requires Safe(c) && Awaiting(c.state)
    requires forall e :: e in es ==> Unheard(e)
    ensures var left := 10 - c.retries;
            if CountT1(es) <= left then
              Run(c, es) == c.(retries := c.retries + CountT1(es)) && SentIn(c, es) == Times(Asked(c), CountT1(es))
            else
              && Run(c, es) == c.(state := Disconnected, t1 := false, retries := 11, rxq := c.rxq + Marker(c))
              && SentIn(c, es) == Times(Asked(c), left)
    decreases |es|
  {
    if es != [] {
      var e, rest := es[0], es[1..];
      assert e in es && forall x :: x in rest ==> x in es;
      var d := Apply(c, e);
      AttemptStep(c, e);
      if !e.T1Out? {
        Attempts(c, rest);
        Nothing(SentIn(c, rest));
      } else if c.retries < 10 {
        Attempts(d, rest);
        TimesMore(Asked(c), if CountT1(rest) <= 9 - c.retries then CountT1(rest) else 9 - c.retries);
      } else {
        NothingMore(d, rest);
        assert SentIn(c, es) == Times(Asked(c), 0);
      }
    }
  }

  lemma AttemptStep(c: Conn, e: Event)
    requires Safe(c) && Awaiting(c.state) && Unheard(e)
    ensures Happens(c, e) ==
            if !e.T1Out? then Effect(c, [])
            else if c.retries < 10 then Effect(c.(retries := c.retries + 1), [Asked(c)])
            else Effect(c.(state := Disconnected, t1 := false, retries := 11, rxq := c.rxq + Marker(c)), [])
  {
    Nothing(c.rxq);
  }

  /** A call that is never answered sends eleven SABMs in all and is over at the eleventh expiry. */
  lemma CallGivesUp(c: Conn, es: seq<Event>)
    requires Safe(c) && c.state == Disconnected && CountT1(es) > 10
    requires forall e :: e in es ==> Unheard(e)
    ensures var x := [DoConnect] + es;
            && SentIn(c, x) == Times(SABM, 11)
            && Run(c, x) == c.(retries := 11)
  {
    var x := [DoConnect] + es;
    var d := Apply(c, DoConnect);
    assert x[1..] == es;
    assert Safe(d);
    Attempts(d, es);
    TimesMore(SABM, 10);
    Nothing(c.rxq);
  }

  // ---- a peer that is gone -------------------------------------------------------------------------

  /** A station that is not connected answers SABM and DISC by UA and every I frame by DM, and nothing else. */
  lemma AnswersDown(c: Conn, m: Msg)
    requires c.state != Connected && c.state != AwaitingConnect
    ensures Handle(c, m).sent == if m == SABM || m == DISC then [UA] else if m.I? then [DM] else []
  {}

  /** Data on a link whose other end is gone: every frame is answered by DM, and the link is over. Each DM
      puts an end marker. */
  lemma HalfOpenData(a: Conn, b: Conn, data: Bytes)
    requires Safe(a) && a.state == Connected && a.va == a.vs && !a.peerBusy && a.txq == []
    requires b.state == Disconnected
    ensures var x := Exchanged(a, b, DoWrite(data));
            var n := |Write(a, data).sent|;
            && n == (if |Chunks(data, a.paclen)| < 7 then |Chunks(data, a.paclen)| else 7)
            && x.b == b && x.answer == Times(DM, n)
            && Over(x.a) && x.a.rxq == a.rxq + seq(n, i => []) && x.more == []
  {
    var c := a.(txq := a.txq + Chunks(data, a.paclen));
    PumpCount(c);
    AllDown(b, Write(a, data).sent);
    AllDM(PumpTx(c).conn, |Write(a, data).sent|);
  }

  lemma {:induction false} PumpCount(c: Conn)
    requires c.state == Connected && !c.peerBusy && Dist(c.va, c.vs) <= 7
    ensures var e := PumpTx(c);
            var room := 7 - Dist(c.va, c.vs);
            && |e.sent| == (if |c.txq| < room then |c.txq| else room)
            && (forall i :: 0 <= i < |e.sent| ==> e.sent[i].I?)
            && e.conn.rxq == c.rxq && e.conn.state == Connected && e.conn.t3 == c.t3
    decreases |c.txq|
  {
    if !PumpBlocked(c) {
      PumpCount(SendNext(c));
      NextDist(c.va, c.vs);
    }
  }

  lemma NextDist(a: SeqNo, s: SeqNo)
    requires Dist(a, s) < 7
    ensures Dist(a, Next(s)) == Dist(a, s) + 1
  {}

  lemma {:induction false} AllDown(b: Conn, ms: seq<Msg>)
    requires b.state == Disconnected && forall i :: 0 <= i < |ms| ==> ms[i].I?
    ensures Deliver(b, ms) == Effect(b, Times(DM, |ms|))
    decreases |ms|
  {
    if ms != [] {
      AllDown(b, ms[1..]);
      TimesMore(DM, |ms| - 1);
    } else {
      assert Times(DM, 0) == [];
    }
  }

  lemma {:induction false} AllDM(c: Conn, n: nat)
    ensures var e := Deliver(c, Times(DM, n));
            && e.sent == [] && e.conn.rxq == c.rxq + seq(n, i => [])
            && (n > 0 ==> e.conn == c.(state := Disconnected, t1 := false, t3 := false, rxq := e.conn.rxq))
    decreases n
  {
    if n > 0 {
      var ms, d := Times(DM, n), Handle(c, DM).conn;
      assert ms[1..] == Times(DM, n - 1);
      AllDM(d, n - 1);
      assert [[]] + seq<Bytes>(n - 1, i => []) == seq<Bytes>(n, i => []);
      assert c.rxq + [[]] + seq<Bytes>(n - 1, i => []) == c.rxq + seq<Bytes>(n, i => []);
    }
  }

  /** Without data the loss is never noticed: polls are not answered, and the idle end stays connected. */
  lemma HalfOpenIdle(a: Conn, b: Conn, e: Event)
    requires Safe(a) && a.state == Connected && a.va == a.vs && b.state == Disconnected && IsTimer(e)
    ensures var x := Exchanged(a, b, e);
            && x.b == b && x.answer == [] && x.more == []
            && x.a == a.(t1 := x.a.t1, t3 := x.a.t3) && x.a.state == Connected
  {
    var out := Happens(a, e);
    if out.sent != [] { DeliverOne(b, out.sent[0]); }
  }

  // ---- a busy peer ---------------------------------------------------------------------------------

  /** Every event but a received RR and the two that begin a new link. */
  predicate NoRelief(e: Event) { e != DoConnect && !(e.Receive? && (e.m.RR? || e.m == SABM)) }

  lemma BusyStep(c: Conn, e: Event)
    requires c.peerBusy && c.state != AwaitingConnect && NoRelief(e)
    ensures var d := Apply(c, e);
            d.peerBusy && d.state != AwaitingConnect && d.vs == c.vs && c.txq <= d.txq
  {
    match e
    case Receive(m) => BusyReceives(c, m);
    case T1Out =>
      var c1 := c.(t1 := false, retries := c.retries + 1);
      RetransmitFrame(c1, c1.va);
    case _ =>
  }

  lemma BusyReceives(c: Conn, m: Msg)
    requires c.peerBusy && c.state != AwaitingConnect && !m.RR? && m != SABM
    ensures var d := Handle(c, m).conn;
            d.peerBusy && d.state != AwaitingConnect && d.vs == c.vs && d.txq == c.txq
  {
    if m.REJ? { RetransmitFrame(UpdateVa(c, m.nr).(t1 := false), m.nr); }
    if m.I? && c.state == Connected { AckedKeeps(Received(c, m)); }
  }

  lemma {:induction false} BusyRun(c: Conn, es: seq<Event>)
    requires c.peerBusy && c.state != AwaitingConnect
    requires forall e :: e in es ==> NoRelief(e)
    ensures var d := Run(c, es); d.peerBusy && d.vs == c.vs && c.txq <= d.txq
    decreases |es|
  {
    if es != [] {
      assert es[0] in es;
      BusyStep(c, es[0]);
      BusyRun(Apply(c, es[0]), es[1..]);
    }
  }

  /** From a received RNR on no new frame is sent until an RR, whatever else happens and is written; T1 runs,
      so that the peer will be polled. */
  lemma BusyHolds(c: Conn, nr: SeqNo, pf: bool, command: bool, es: seq<Event>)
    requires c.state == Connected
    requires forall e :: e in es ==> NoRelief(e)
    ensures var busy := Handle(c, RNR(nr, pf, command));
            && busy.sent == [] && busy.conn.t1 && busy.conn.txq == c.txq
            && Run(busy.conn, es).vs == c.vs && c.txq <= Run(busy.conn, es).txq
  {
    BusyRun(Handle(c, RNR(nr, pf, command)).conn, es);
  }

  lemma {:induction false} Dropped(m: map<SeqNo, IMsg>, s: SeqNo, nr: SeqNo, k: SeqNo)
    ensures k in DropAcked(m, s, nr) <==> k in m && Dist(s, k) >= Dist(s, nr)
    ensures k in DropAcked(m, s, nr) ==> DropAcked(m, s, nr)[k] == m[k]
    decreases Dist(s, nr)
  {
    if s != nr {
      DistNext(s, nr);
      Dropped(m - {s}, Next(s), nr, k);
      if k != s { DistNext(s, k); }
    }
  }

  /** A busy peer's N(R) counts: what lies before it is acknowledged, the rest is kept as it was. */
  lemma BusyAcknowledges(c: Conn, nr: SeqNo, pf: bool, command: bool)
    requires c.state == Connected
    ensures var d := Handle(c, RNR(nr, pf, command)).conn;
            && d.va == nr && d.vs == c.vs
            && (forall k: SeqNo :: k in d.unacked <==> k in c.unacked && Dist(c.va, k) >= Dist(c.va, nr))
            && (forall k: SeqNo :: k in d.unacked ==> d.unacked[k] == c.unacked[k])
  {
    forall k: SeqNo
      ensures k in DropAcked(c.unacked, c.va, nr) <==> k in c.unacked && Dist(c.va, k) >= Dist(c.va, nr)
      ensures k in DropAcked(c.unacked, c.va, nr) ==> DropAcked(c.unacked, c.va, nr)[k] == c.unacked[k]
    {
      Dropped(c.unacked, c.va, nr, k);
    }
  }

  /** A pause costs nothing: RNR and then RR with the same number is RR alone. */
  lemma PauseUndone(c: Conn, nr: SeqNo, pf: bool, command: bool)
    requires c.t1 || nr == c.vs
    ensures Handle(Handle(c, RNR(nr, pf, command)).conn, RR(nr, pf, command)) == Handle(c, RR(nr, pf, command))
  {
    if c.state == Connected {
      var d := UpdateVa(c.(peerBusy := false), nr);
      assert UpdateVa(Handle(c, RNR(nr, pf, command)).conn.(peerBusy := false), nr) == d.(t1 := true);
    }
  }

  // ---- what reaches the session --------------------------------------------------------------------

  /** The link ends, or what should end it arrives. */
  predicate Ends(c: Conn, e: Event) {
    || (e.Receive? && (e.m == DISC || e.m == DM || (e.m == UA && c.state == AwaitingRelease)))
    || (Timeout(c, e) && c.retries >= 10 && c.state != AwaitingConnect)
  }

  /** What one event queues for the reader: an end marker, the next information, or nothing. */
  function ForSession(c: Conn, e: Event): seq<Bytes> {
    if Ends(c, e) then [[]]
    else if e.Receive? && e.m.UI? && e.m.info != [] then [e.m.info]
    else if e.Receive? && e.m.I? && c.state == Connected && e.m.ns == c.vr && e.m.info != [] then [e.m.info]
    else []
  }

  /** What one event gives to the reader. */
  function Taken(c: Conn, e: Event): seq<Bytes> { if e.DoRead? && c.rxq != [] then [c.rxq[0]] else [] }

  lemma SessionSees(c: Conn, e: Event)
    ensures Taken(c, e) + Apply(c, e).rxq == c.rxq + ForSession(c, e)
  {
    if e.DoRead? {
      assert c.rxq + [] == c.rxq && [] + c.rxq == c.rxq;
      if c.rxq != [] { assert c.rxq == [c.rxq[0]] + c.rxq[1..]; }
    } else {
      Queues(c, e);
      Nothing(c.rxq + ForSession(c, e));
    }
  }

  lemma Nothing<T>(xs: seq<T>)
    ensures [] + xs == xs && xs + [] == xs
  {}

  lemma Queues(c: Conn, e: Event)
    requires !e.DoRead?
    ensures Apply(c, e).rxq == c.rxq + ForSession(c, e)
  {
    Nothing(c.rxq);
    match e
    case Receive(m) => ReceiveQueues(c, m);
    case DoWrite(data) => PumpFrame(c.(txq := c.txq + Chunks(data, c.paclen)));
    case T1Out => if c.t1 { T1Queues(c); }
    case _ =>
  }

  lemma T1Queues(c: Conn)
    requires c.t1
    ensures T1Expire(c).conn.rxq == c.rxq + ForSession(c, T1Out)
  {
    var c1 := c.(t1 := false, retries := c.retries + 1);
    RetransmitFrame(c1, c1.va);
    Nothing(c.rxq);
  }

  /** The pump behind an acknowledgement touches neither the reader's queue nor the busy flag. */
  lemma AckedKeeps(c: Conn)
    ensures var d := AckedThenPump(c).conn;
            d.rxq == c.rxq && d.peerBusy == c.peerBusy && d.state == c.state && (c.peerBusy ==> d.vs == c.vs && d.txq == c.txq)
  {
    PumpFrame(if c.va == c.vs then c.(t1 := false) else c);
  }

  lemma ReceiveQueues(c: Conn, m: Msg)
    ensures Handle(c, m).conn.rxq == c.rxq + ForSession(c, Receive(m))
  {
    Nothing(c.rxq);
    match m
    case UA => if c.state == AwaitingConnect {
        PumpFrame(ResetCounters(c).(t1 := false, state := Connected, t3 := true));
      }
    case I(_, _, _, _) => if c.state == Connected { AckedKeeps(Received(c, m)); }
    case RR(nr, _, _) => if c.state == Connected { AckedKeeps(UpdateVa(c.(peerBusy := false), nr).(t3 := true)); }
    case REJ(nr, _, _) => if c.state == Connected { RetransmitFrame(UpdateVa(c, nr).(t1 := false), nr); }
    case _ =>
  }

  function AllFor(c: Conn, es: seq<Event>): seq<Bytes>
    decreases |es|
  {
    if es == [] then [] else ForSession(c, es[0]) + AllFor(Apply(c, es[0]), es[1..])
  }

  function AllTaken(c: Conn, es: seq<Event>): seq<Bytes>
    decreases |es|
  {
    if es == [] then [] else Taken(c, es[0]) + AllTaken(Apply(c, es[0]), es[1..])
  }

  /** In every run, reads give exactly what was queued, in the order it came: accepted information, UI
      information and end markers; the rest is still there. */
  lemma {:induction false} ReadInOrder(c: Conn, es: seq<Event>)
    ensures AllTaken(c, es) + Run(c, es).rxq == c.rxq + AllFor(c, es)
    decreases |es|
  {
    if es == [] {
      assert [] + c.rxq == c.rxq + [];
    } else {
      var d := Apply(c, es[0]);
      SessionSees(c, es[0]);
      ReadInOrder(d, es[1..]);
      Regroup(Taken(c, es[0]), AllTaken(d, es[1..]), Run(d, es[1..]).rxq, d.rxq, c.rxq,
              ForSession(c, es[0]), AllFor(d, es[1..]));
    }
  }

  lemma Regroup<T>(t: seq<T>, ts: seq<T>, end: seq<T>, mid: seq<T>, q: seq<T>, f: seq<T>, fs: seq<T>)
    requires t + mid == q + f && ts + end == mid + fs
    ensures t + ts + end == q + (f + fs)
  {
    Chain(t, ts, end);
    Chain(t, mid, fs);
    Chain(q, f, fs);
  }

  // ---- which events move a link --------------------------------------------------------------------

  /** A link begins by SABM, or by the UA awaited, and in no other way. */
  lemma Begins(c: Conn, e: Event)
    requires c.state != Connected
    ensures Apply(c, e).state == Connected <==> e == Receive(SABM) || (e == Receive(UA) && c.state == AwaitingConnect)
  {
    if e == Receive(UA) && c.state == AwaitingConnect {
      PumpFrame(ResetCounters(c).(t1 := false, state := Connected, t3 := true));
    }
  }

  /** It is over exactly when the end marker says so, or when a call is given up. */
  lemma IsOver(c: Conn, e: Event)
    requires Safe(c) && c.state != Disconnected
    ensures Apply(c, e).state == Disconnected <==>
            Ends(c, e) || (c.state == AwaitingConnect && e == T1Out && c.retries == 10)
  {
    match e
    case Receive(m) =>
      if NoReset(e) { ReceiveKeepsCount(c, m); }
      if m == UA && c.state == AwaitingConnect {
        PumpFrame(ResetCounters(c).(t1 := false, state := Connected, t3 := true));
      }
    case DoWrite(data) => PumpFrame(c.(txq := c.txq + Chunks(data, c.paclen)));
    case T1Out => if c.t1 { T1KeepsCount(c); }
    case _ =>
  }

  /** Nor do frames out of place: acknowledgements on no link, a UA nobody waits for, frames of no known type. */
  lemma FramesOutOfPlace(c: Conn, m: Msg)
    requires m == Other || (c.state != Connected && (m.RR? || m.RNR? || m.REJ?)) || (m == UA && !Awaiting(c.state))
    ensures Happens(c, Receive(m)) == Effect(c, [])
  {}

  /** Calls out of place do nothing. */
  lemma OutOfPlace(c: Conn, data: Bytes)
    ensures c.state != Disconnected ==> Happens(c, DoConnect) == Effect(c, [])
    ensures c.state == Disconnected || c.state == AwaitingRelease ==> Happens(c, DoDisconnect) == Effect(c, [])
    ensures c.state != Connected ==> Happens(c, DoWrite(data)) == Effect(c, [])
    ensures c.rxq == [] ==> Happens(c, DoRead) == Effect(c, [])
  {}
}
