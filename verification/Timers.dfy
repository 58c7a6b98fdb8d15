/** Timer safety of the whole connection machine: which timers run in which state, on every run,
    and how many T1 expiries it takes to give a silent peer up. */
module Timers {
  import opened Common
  import opened Link

  predicate Awaiting(s: ConnState) { s == AwaitingConnect || s == AwaitingRelease }

  /** Whatever waits for an answer has T1 running; T3 runs only while connected. */
  predicate Safe(c: Conn) {
    && (Awaiting(c.state) ==> c.t1)
    && (c.state == Connected && c.va != c.vs ==> c.t1)
    && (c.t3 ==> c.state == Connected)
    && (c.state == Disconnected ==> !c.t1)
    && (c.state != Disconnected ==> c.retries <= MAX_RETRIES)
  }

  /** An I or RR frame whose N(R) differs from V(S) although T1 is off (so nothing is outstanding),
      met by a connection with nothing it can send at once. `UpdateVa` believes it, and
      V(A) leaves V(S) with no timer to bring it back. */
  predicate Stray(c: Conn, m: Msg) {
    && c.state == Connected
    && (m.I? || m.RR?)
    && !c.t1
    && m.nr != c.vs
    && ((m.I? && c.peerBusy) || c.txq == [] || Dist(m.nr, c.vs) >= WINDOW)
  }

  lemma ReceiveISafe(c: Conn, m: IMsg)
    requires Safe(c)
    ensures Safe(HandleI(c, m).conn) <==> !Stray(c, m)
  {
    if c.state == Connected { AckedThenPumpSafe(c, Received(c, m)); }
  }

  lemma ReceiveRrSafe(c: Conn, m: Msg)
    requires Safe(c) && m.RR?
    ensures Safe(HandleRr(c, m.nr).conn) <==> !Stray(c, m)
  {
    if c.state == Connected {
      AckedThenPumpSafe(c, UpdateVa(c.(peerBusy := false), m.nr).(t3 := true));
    }
  }

  /** `d` is `c` after an acknowledgement: the pump restores safety unless it is blocked with
      T1 off and V(A) != V(S). */
  lemma AckedThenPumpSafe(c: Conn, d: Conn)
    requires Safe(c) && c.state == d.state == Connected
    requires d.retries == c.retries && d.vs == c.vs && d.t1 == c.t1 && d.txq == c.txq
    ensures Safe(AckedThenPump(d).conn) <==> !(!c.t1 && d.va != d.vs && PumpBlocked(d))
  {
    PumpFrame(if d.va == d.vs then d.(t1 := false) else d);
  }

  /** A received frame keeps timer safety exactly when it is not stray. */
  lemma ReceiveSafe(c: Conn, m: Msg)
    requires Safe(c)
    ensures Safe(Handle(c, m).conn) <==> !Stray(c, m)
  {
    match m
    case I(_, _, _, _) => ReceiveISafe(c, m);
    case RR(_, _, _) => ReceiveRrSafe(c, m);
    case UA =>
      if c.state == AwaitingConnect {
        PumpFrame(ResetCounters(c).(t1 := false, state := Connected, t3 := true));
      }
    case REJ(nr, _, _) =>
      if c.state == Connected {
        RetransmitFrame(UpdateVa(c, nr).(t1 := false), nr);
      }
    case _ =>
  }

  /** The first such frame a fresh connection may meet: an RR for a frame never sent. */
  lemma StrayExample(c: Conn)
    requires c.state == Connected && c.va == 0 && c.vs == 0 && !c.t1 && c.txq == []
    ensures Stray(c, RR(3, false, false))
    ensures var d := Handle(c, RR(3, false, false)).conn;
            d.state == Connected && d.va != d.vs && !d.t1
  {
    var c1 := UpdateVa(c.(peerBusy := false), 3).(t3 := true);
    PumpFrame(c1);
  }

  /** Session calls keep timer safety without condition. */
  lemma CallSafe(c: Conn)
    requires Safe(c)
    ensures Safe(Connect(c).conn) && Safe(Disconnect(c).conn) && Safe(Read(c).0)
  {}

  lemma WriteSafe(c: Conn, data: Bytes)
    requires Safe(c)
    ensures Safe(Write(c, data).conn)
  {
    PumpFrame(c.(txq := c.txq + Chunks(data, c.paclen)));
  }

  /** So do timer expiries. */
  lemma T1ExpirySafe(c: Conn)
    requires Safe(c) && c.t1
    ensures Safe(T1Expire(c).conn)
  {
    var c1 := c.(t1 := false, retries := c.retries + 1);
    RetransmitFrame(c1, c1.va);
  }

  lemma T3ExpirySafe(c: Conn)
    requires Safe(c) && c.t3
    ensures Safe(T3Expire(c).conn)
  {}

  // ---- runs ------------------------------------------------------------------------------

  datatype Event = Receive(m: Msg) | DoConnect | DoDisconnect | DoWrite(data: Bytes) | DoRead | T1Out | T3Out

  /** One event; a timer that is not running cannot run out. */
  function Happens(c: Conn, e: Event): Effect {
    match e
    case Receive(m) => Handle(c, m)
    case DoConnect => Connect(c)
    case DoDisconnect => Disconnect(c)
    case DoWrite(data) => Write(c, data)
    case DoRead => Effect(Read(c).0, [])
    case T1Out => if c.t1 then T1Expire(c) else Effect(c, [])
    case T3Out => if c.t3 then T3Expire(c) else Effect(c, [])
  }

  function Apply(c: Conn, e: Event): Conn { Happens(c, e).conn }

  function Run(c: Conn, es: seq<Event>): Conn
    decreases |es|
  {
    if es == [] then c else Run(Apply(c, es[0]), es[1..])
  }

  /** No event of a run is `bad` where it happens. */
  predicate Never(bad: (Conn, Event) -> bool, c: Conn, es: seq<Event>)
    decreases |es|
  {
    es == [] || (!bad(c, es[0]) && Never(bad, Apply(c, es[0]), es[1..]))
  }

  /** One event keeps what is `good` exactly when it is not `bad`. */
  ghost predicate KeptUnless(good: Conn -> bool, bad: (Conn, Event) -> bool) {
    forall c, e :: good(c) ==> (good(Apply(c, e)) <==> !bad(c, e))
  }

  /** What one event keeps, a run keeps: it is good at every point exactly if nothing bad happens. */
  lemma {:induction false} RunKeeps(good: Conn -> bool, bad: (Conn, Event) -> bool, c: Conn, es: seq<Event>)
    requires KeptUnless(good, bad) && good(c)
    ensures Never(bad, c, es) <==> forall k :: 0 <= k <= |es| ==> good(Run(c, es[..k]))
    decreases |es|
  {
    if es == [] {
      assert es[..0] == es;
    } else {
      var d, rest := Apply(c, es[0]), es[1..];
      forall k | 0 <= k < |es| ensures Run(c, es[..k + 1]) == Run(d, rest[..k]) {
        assert es[..k + 1][0] == es[0] && es[..k + 1][1..] == rest[..k];
      }
      assert Run(c, es[..0]) == c && Run(d, rest[..0]) == d;
      if good(d) {
        RunKeeps(good, bad, d, rest);
        if Never(bad, d, rest) {
          forall k | 0 <= k <= |es| ensures good(Run(c, es[..k])) {
            if k > 0 { assert Run(c, es[..(k - 1) + 1]) == Run(d, rest[..k - 1]); }
          }
        } else {
          var k :| 0 <= k <= |rest| && !good(Run(d, rest[..k]));
          assert !good(Run(c, es[..k + 1]));
        }
      } else {
        assert !good(Run(c, es[..0 + 1]));
      }
    }
  }

  predicate StrayEvent(c: Conn, e: Event) { e.Receive? && Stray(c, e.m) }

  lemma EventSafe(c: Conn, e: Event)
    requires Safe(c)
    ensures Safe(Apply(c, e)) <==> !StrayEvent(c, e)
  {
    match e
    case Receive(m) => ReceiveSafe(c, m);
    case DoWrite(data) => WriteSafe(c, data);
    case T1Out => if c.t1 { T1ExpirySafe(c); }
    case T3Out => if c.t3 { T3ExpirySafe(c); }
    case _ => CallSafe(c);
  }

  /** Every run without stray frames is timer safe, and the first stray frame of a run breaks it. */
  lemma RunSafe(c: Conn, es: seq<Event>)
    requires Safe(c)
    ensures Never(StrayEvent, c, es) <==> forall k :: 0 <= k <= |es| ==> Safe(Run(c, es[..k]))
    ensures Never(StrayEvent, c, es) ==> Safe(Run(c, es))
  {
    assert es[..|es|] == es;
    forall d, e ensures Safe(d) ==> (Safe(Apply(d, e)) <==> !StrayEvent(d, e)) {
      if Safe(d) { EventSafe(d, e); }
    }
    RunKeeps(Safe, StrayEvent, c, es);
  }

  // ---- a link nobody watches ----------------------------------------------------------------

  /** A connected station has a timer running, so that a dead peer will be noticed. */
  predicate Watched(c: Conn) { c.state == Connected ==> c.t1 || c.t3 }

  /** A REJ that acknowledges everything, met with T3 off: it stops T1 and starts nothing. */
  predicate Silences(c: Conn, e: Event) {
    c.state == Connected && e.Receive? && e.m.REJ? && e.m.nr == c.vs && !c.t3
  }

  lemma ReceiveWatched(c: Conn, m: Msg)
    requires Watched(c)
    ensures Watched(Handle(c, m).conn) <==> !Silences(c, Receive(m))
  {
    match m
    case I(_, _, _, _) =>
      if c.state == Connected {
        var d := Received(c, m);
        PumpFrame(if d.va == d.vs then d.(t1 := false) else d);
      }
    case RR(nr, _, _) =>
      if c.state == Connected {
        var d := UpdateVa(c.(peerBusy := false), nr).(t3 := true);
        PumpFrame(if d.va == d.vs then d.(t1 := false) else d);
      }
    case UA =>
      if c.state == AwaitingConnect {
        PumpFrame(ResetCounters(c).(t1 := false, state := Connected, t3 := true));
      }
    case REJ(nr, _, _) =>
      if c.state == Connected { RetransmitFrame(UpdateVa(c, nr).(t1 := false), nr); }
    case _ =>
  }

  lemma EventWatched(c: Conn, e: Event)
    requires Watched(c)
    ensures Watched(Apply(c, e)) <==> !Silences(c, e)
  {
    match e
    case Receive(m) => ReceiveWatched(c, m);
    case DoWrite(data) => PumpFrame(c.(txq := c.txq + Chunks(data, c.paclen)));
    case T1Out =>
      var c1 := c.(t1 := false, retries := c.retries + 1);
      RetransmitFrame(c1, c1.va);
    case _ =>
  }

  /** While connected some timer runs, at every point of every run exactly if no such REJ is received in it. */
  lemma RunWatched(c: Conn, es: seq<Event>)
    requires Watched(c)
    ensures Never(Silences, c, es) <==> forall k :: 0 <= k <= |es| ==> Watched(Run(c, es[..k]))
  {
    forall d, e ensures Watched(d) ==> (Watched(Apply(d, e)) <==> !Silences(d, e)) {
      if Watched(d) { EventWatched(d, e); }
    }
    RunKeeps(Watched, Silences, c, es);
  }

  /** It can happen to any idle link: its T3 runs out, and its poll crosses such a REJ. */
  lemma SilencedExample(c: Conn)
    requires Safe(c) && c.state == Connected && c.va == c.vs && c.t3
    ensures var d := Run(c, [T3Out, Receive(REJ(c.vs, false, false))]);
            d.state == Connected && d.va == d.vs && !Watched(d)
  {
    var d := Apply(c, T3Out);
    var rej := Receive(REJ(c.vs, false, false));
    assert [T3Out, rej][1..] == [rej] && [rej][1..] == [];
    assert Run(c, [T3Out, rej]) == Run(d, [rej]) == Apply(d, rej);
    RetransmitFrame(UpdateVa(d, c.vs).(t1 := false), c.vs);
  }

  /** Then a dead peer is never noticed: without a received frame or a call no timer ever runs again. */
  lemma {:induction false} NeverNoticed(c: Conn, es: seq<Event>)
    requires c.state == Connected && !Watched(c)
    requires forall e :: e in es ==> IsTimer(e)
    ensures Run(c, es) == c
    decreases |es|
  {
    if es != [] {
      assert es[0] in es;
      NeverNoticed(c, es[1..]);
    }
  }

  // ---- giving up --------------------------------------------------------------------------

  /** Every event but a connect and a received SABM, UA, DISC or DM. */
  predicate NoReset(e: Event) {
    e != DoConnect && !(e.Receive? && (e.m == SABM || e.m == UA || e.m == DISC || e.m == DM))
  }

  /** A connection that is waiting for the peer: for UA, or for an acknowledgement. */
  predicate Waiting(c: Conn) {
    Awaiting(c.state) || (c.state == Connected && c.va != c.vs)
  }

  /** T1 runs out on a station that waits. */
  predicate Timeout(c: Conn, e: Event) { e.T1Out? && c.t1 && Waiting(c) }

  /** How many events of a run are timeouts. */
  function Timeouts(c: Conn, es: seq<Event>): nat
    decreases |es|
  {
    if es == [] then 0 else (if Timeout(c, es[0]) then 1 else 0) + Timeouts(Apply(c, es[0]), es[1..])
  }

  lemma ReceiveKeepsCount(c: Conn, m: Msg)
    requires NoReset(Receive(m)) && c.state != Disconnected
    ensures Handle(c, m).conn.retries == c.retries && Handle(c, m).conn.state == c.state
  {
    if c.state == Connected {
      match m
      case I(_, _, _, _) =>
        var d := Received(c, m);
        PumpFrame(if d.va == d.vs then d.(t1 := false) else d);
      case RR(nr, _, _) =>
        var d := UpdateVa(c.(peerBusy := false), nr).(t3 := true);
        PumpFrame(if d.va == d.vs then d.(t1 := false) else d);
      case REJ(nr, _, _) => RetransmitFrame(UpdateVa(c, nr).(t1 := false), nr);
      case _ =>
    }
  }

  lemma T1KeepsCount(c: Conn)
    requires c.t1 && c.state != Disconnected
    ensures var d := T1Expire(c).conn;
            && d.retries == c.retries + (if Waiting(c) then 1 else 0)
            && d.state == if Waiting(c) && c.retries + 1 > MAX_RETRIES then Disconnected else c.state
  {
    var c1 := c.(t1 := false, retries := c.retries + 1);
    RetransmitFrame(c1, c1.va);
  }

  /** Only a timeout moves the retry counter, and only the eleventh one disconnects. */
  lemma EventKeepsCount(c: Conn, e: Event)
    requires NoReset(e) && c.state != Disconnected
    ensures Apply(c, e).retries == c.retries + (if Timeout(c, e) then 1 else 0)
    ensures Apply(c, e).state == Disconnected <==> Timeout(c, e) && c.retries + 1 > MAX_RETRIES
  {
    match e
    case Receive(m) => ReceiveKeepsCount(c, m);
    case DoWrite(data) => PumpFrame(c.(txq := c.txq + Chunks(data, c.paclen)));
    case T1Out => if c.t1 { T1KeepsCount(c); }
    case _ =>
  }

  /** A disconnected station does nothing more by itself. */
  lemma {:induction false} DisconnectedStays(c: Conn, es: seq<Event>)
    requires c.state == Disconnected
    requires forall e :: e in es ==> NoReset(e)
    ensures Run(c, es).state == Disconnected && Run(c, es).retries == c.retries && Timeouts(c, es) == 0
    decreases |es|
  {
    if es != [] {
      assert es[0] in es;
      DisconnectedStays(Apply(c, es[0]), es[1..]);
    }
  }

  /** The retry counter counts timeouts and nothing clears it: whatever I, RR, RNR, REJ and UI frames
      arrive and whatever the session writes, reads or releases, a link is dropped at the timeout that
      brings the count above ten, even if everything was acknowledged in between. */
  lemma {:induction false} DroppedByCount(c: Conn, es: seq<Event>)
    requires c.state != Disconnected && c.retries <= MAX_RETRIES
    requires forall e :: e in es ==> NoReset(e)
    ensures Run(c, es).state == Disconnected <==> c.retries + Timeouts(c, es) > MAX_RETRIES
    ensures Run(c, es).retries == c.retries + Timeouts(c, es)
    decreases |es|
  {
    if es != [] {
      assert es[0] in es;
      var d := Apply(c, es[0]);
      EventKeepsCount(c, es[0]);
      if d.state == Disconnected {
        DisconnectedStays(d, es[1..]);
      } else {
        DroppedByCount(d, es[1..]);
      }
    }
  }

  // ---- a silent peer ---------------------------------------------------------------------------

  function CountT1(es: seq<Event>): nat {
    if es == [] then 0 else (if es[0].T1Out? then 1 else 0) + CountT1(es[1..])
  }

  /** What can happen while no frame arrives: session calls and expiries. */
  predicate Silent(e: Event) { !e.Receive? && e != DoConnect }

  lemma SilentStep(c: Conn, e: Event)
    requires Safe(c) && Waiting(c) && Silent(e)
    ensures Safe(Apply(c, e)) && (Apply(c, e).state == Disconnected || Waiting(Apply(c, e)))
    ensures Timeout(c, e) <==> e.T1Out?
  {
    EventSafe(c, e);
    match e
    case DoWrite(data) => PumpFrame(c.(txq := c.txq + Chunks(data, c.paclen)));
    case T1Out =>
      var c1 := c.(t1 := false, retries := c.retries + 1);
      RetransmitFrame(c1, c1.va);
    case _ =>
  }

  /** While nothing is heard, every T1 expiry before the link is given up is a timeout. */
  lemma {:induction false} SilentTimeouts(c: Conn, es: seq<Event>)
    requires Safe(c) && Waiting(c)
    requires forall e :: e in es ==> Silent(e)
    ensures Run(c, es).state != Disconnected ==> Waiting(Run(c, es)) && Timeouts(c, es) == CountT1(es)
    ensures Timeouts(c, es) <= CountT1(es)
    decreases |es|
  {
    if es != [] {
      assert es[0] in es;
      var d := Apply(c, es[0]);
      SilentStep(c, es[0]);
      if d.state == Disconnected {
        forall e | e in es[1..] ensures NoReset(e) { assert Silent(e); }
        DisconnectedStays(d, es[1..]);
      } else {
        SilentTimeouts(d, es[1..]);
      }
    }
  }

  /** With no frame received, a waiting connection is given up at its (11 - retries)th T1 expiry and not
      before, whatever the session does and however T3 expiries fall between; until then it waits. */
  lemma GivesUp(c: Conn, es: seq<Event>)
    requires Safe(c) && Waiting(c)
    requires forall e :: e in es ==> Silent(e)
    ensures Run(c, es).state == Disconnected <==> CountT1(es) >= MAX_RETRIES + 1 - c.retries
    ensures Run(c, es).state == Disconnected || Waiting(Run(c, es))
  {
    SilentTimeouts(c, es);
    forall e | e in es ensures NoReset(e) { assert Silent(e); }
    DroppedByCount(c, es);
  }

  predicate IsTimer(e: Event) { e.T1Out? || e.T3Out? }

  /** An idle link is polled for ever: no number of expiries counts against it. */
  lemma {:induction false} IdlePollsUncounted(c: Conn, es: seq<Event>)
    requires Safe(c) && c.state == Connected && c.va == c.vs
    requires forall e :: e in es ==> IsTimer(e)
    ensures Run(c, es) == c.(t1 := Run(c, es).t1, t3 := Run(c, es).t3)
    decreases |es|
  {
    if es != [] {
      assert es[0] in es;
      var d := Apply(c, es[0]);
      assert d == c.(t1 := d.t1, t3 := d.t3);
      IdlePollsUncounted(d, es[1..]);
    }
  }
}
