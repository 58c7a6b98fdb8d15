/** `AX25Connection`: the object with its fields, its loops over the retransmission buffer and its
    frames with real control octets. Every method is proved to do what module `Link` says. */
module Connection {
  import opened Common
  import opened Frame
  import opened FrameRead
  import L = Link

  /** What the connection machine reads of a frame. */
  function View(f: Frame): L.Msg {
    var c := f.control;
    match TypeOf(c)
    case TI => ViewI(f)
    case TRR => L.RR(Nr(c), Pf(c), f.dest.ch)
    case TRNR => L.RNR(Nr(c), Pf(c), f.dest.ch)
    case TREJ => L.REJ(Nr(c), Pf(c), f.dest.ch)
    case TUI => L.UI(f.info)
    case TSABM => L.SABM
    case TUA => L.UA
    case TDISC => L.DISC
    case TDM => L.DM
    case _ => L.Other
  }

  /** What is read of a received frame, by its control octet: U frames with P/F set or not, numbered frames with
      N(R) in the high three bits, P/F below, and N(S) in bits 1 to 3. */
  lemma ViewIs(f: Frame)
    ensures var c := f.control;
            && (View(f) == L.SABM <==> c == 0x2F || c == 0x3F) && (View(f) == L.UA <==> c == 0x63 || c == 0x73)
            && (View(f) == L.DISC <==> c == 0x43 || c == 0x53) && (View(f) == L.DM <==> c == 0x0F || c == 0x1F)
            && (View(f) == L.UI(f.info) <==> c == 0x03 || c == 0x13)
  {
    UTypes(f.control);
  }

  lemma NumberedViewIs(f: Frame)
    ensures var c := f.control;
            var nr, pf := (c >> 5) as nat, c & 0x10 == 0x10;
            && nr < 8
            && (c & 0x01 == 0 <==> View(f).I?)
            && (c & 0x01 == 0 ==> View(f) == L.I(Ns(c), nr, pf, f.info) && Ns(c) == ((c & 0x0E) >> 1) as nat)
            && (c & 0x0F == 0x01 <==> View(f) == L.RR(nr, pf, f.dest.ch))
            && (c & 0x0F == 0x05 <==> View(f) == L.RNR(nr, pf, f.dest.ch))
            && (c & 0x0F == 0x09 <==> View(f) == L.REJ(nr, pf, f.dest.ch))
  {
    NumberedTypes(f.control);
    FieldsOf(f.control);
  }

  function ViewI(f: Frame): L.IMsg { L.I(Ns(f.control), Nr(f.control), Pf(f.control), f.info) }

  /** The retransmission buffer holds I frames only. */
  type StoredFrame = f: Frame | TypeOf(f.control) == TI
    witness Frame(Address("", 0, false, false), Address("", 0, false, false), [], 0, None, [])

  function ViewAll(fs: seq<Frame>): seq<L.Msg> {
    seq(|fs|, i requires 0 <= i < |fs| => View(fs[i]))
  }

  function ViewMap(m: map<L.SeqNo, StoredFrame>): map<L.SeqNo, L.IMsg> {
    map k | k in m :: ViewI(m[k])
  }

  lemma ViewAllSnoc(fs: seq<Frame>, f: Frame)
    ensures ViewAll(fs + [f]) == ViewAll(fs) + [View(f)]
  {}

  /** A new address object with the callsign and SSID of `a`. */
  function Bare(a: Address): Address { Address(a.callsign, a.ssid, false, false) }

  /** A frame from `local` to `remote` that its type allows. */
  predicate Outgoing(f: Frame, local: Address, remote: Address) {
    && f.dest == Bare(remote).(ch := f.dest.ch) && f.src == Bare(local).(ch := f.src.ch)
    && f.repeaters == [] && CarriesRight(f)
  }

  /** The frames of the factories are what they are meant to be. */
  lemma UFrames(local: Address, remote: Address)
    ensures var d, s := Bare(remote), Bare(local);
            && View(SabmFrame(d, s)) == L.SABM && Outgoing(SabmFrame(d, s), local, remote)
            && View(UaFrame(d, s)) == L.UA && Outgoing(UaFrame(d, s), local, remote)
            && View(DiscFrame(d, s)) == L.DISC && Outgoing(DiscFrame(d, s), local, remote)
            && View(DmFrame(d, s)) == L.DM && Outgoing(DmFrame(d, s), local, remote)
  {}

  lemma SFrames(local: Address, remote: Address, nr: L.SeqNo, pf: bool, command: bool)
    ensures var d, s := Bare(remote), Bare(local);
            && View(RrFrame(d, s, nr, pf, command)) == L.RR(nr, pf, command)
            && View(RejFrame(d, s, nr, pf, command)) == L.REJ(nr, pf, command)
            && Outgoing(RrFrame(d, s, nr, pf, command), local, remote)
            && Outgoing(RejFrame(d, s, nr, pf, command), local, remote)
  {
    SCtrlFields(0x01, nr, pf);
    SCtrlFields(0x09, nr, pf);
  }

  lemma IFrames(local: Address, remote: Address, ns: L.SeqNo, nr: L.SeqNo, info: Bytes)
    ensures var f := IFrame(Bare(remote), Bare(local), ns, nr, info);
            && TypeOf(f.control) == TI && ViewI(f) == View(f) == L.I(ns, nr, false, info)
            && Outgoing(f, local, remote)
  {
    ICtrlFields(ns, nr, false);
  }

  lemma RenumberedFrame(f: Frame, local: Address, remote: Address, nr: L.SeqNo)
    requires TypeOf(f.control) == TI
    ensures var g := f.(control := ReplaceNr(f.control, nr));
            && TypeOf(g.control) == TI && ViewI(g) == View(g) == L.WithNr(ViewI(f), nr)
            && (Outgoing(f, local, remote) ==> Outgoing(g, local, remote))
  {
    ReplaceNrKeeps(f.control, nr);
  }

  /** Between stations with canonical addresses every frame sent survives the codec, and the
      peer's machine reads of it what this one meant. */
  lemma OutgoingSurvives(f: Frame, local: Address, remote: Address)
    requires Outgoing(f, local, remote) && Canonical(Bare(local)) && Canonical(Bare(remote))
    ensures DecodeFrame(EncodeFrame(f)) == Ok(WithEnds(f)) && View(WithEnds(f)) == View(f)
  {
    FrameRoundTrip(f);
    BothCanonical(f, local, remote);
  }

  lemma BothCanonical(f: Frame, local: Address, remote: Address)
    requires f.dest == Bare(remote).(ch := f.dest.ch) && f.src == Bare(local).(ch := f.src.ch) && f.repeaters == []
    requires Canonical(Bare(local)) && Canonical(Bare(remote))
    ensures AllCanonical(Addresses(f))
  {
    assert Addresses(f) == [f.dest, f.src];
  }

  ghost predicate AllOutgoing(fs: seq<Frame>, local: Address, remote: Address) {
    forall i :: 0 <= i < |fs| ==> Outgoing(fs[i], local, remote)
  }

  ghost predicate StoredOutgoing(m: map<L.SeqNo, StoredFrame>, local: Address, remote: Address) {
    forall k :: k in m ==> Outgoing(m[k], local, remote)
  }

  lemma OneMoreChunk(queue: seq<Bytes>, rest: Bytes, chunk: Bytes, later: Bytes, paclen: L.PacLen)
    requires rest == chunk + later && |chunk| <= paclen && (later != [] ==> |chunk| == paclen)
    ensures queue + L.Chunks(rest, paclen) ==
            queue + [chunk] + if later == [] then [] else L.Chunks(later, paclen)
  {
    L.NextChunk(rest, chunk, later, paclen);
  }

  class AX25Connection {
    const local: Address
    const remote: Address
    const paclen: L.PacLen

    var state: L.ConnState
    var vs: L.SeqNo
    var vr: L.SeqNo
    var va: L.SeqNo
    var retryCount: nat
    var t1: bool
    var t3: bool
    var unacked: map<L.SeqNo, StoredFrame>
    var txQueue: seq<Bytes>
    var rxQueue: seq<Bytes>
    var peerBusy: bool

    /** Everything given to the send callback so far. */
    var sent: seq<Frame>

    /** The frames sent, as the peer will read them. */
    ghost function Out(): seq<L.Msg>
      reads this`sent
    {
      ViewAll(sent)
    }

    ghost function Val(): L.Conn
      reads this
    {
      L.Conn(state, vs, vr, va, retryCount, t1, t3, ViewMap(unacked), txQueue, rxQueue,
             peerBusy, paclen)
    }

    /** Everything sent, and everything kept to be sent again, is an outgoing frame of this connection. */
    ghost predicate Proper()
      reads this`sent, this`unacked
    {
      AllOutgoing(sent, local, remote) && StoredOutgoing(unacked, local, remote)
    }

    /** The event took the connection and its output from `(c, out)` to where effect `e` says. */
    ghost predicate Did(e: L.Effect, before: seq<L.Msg>)
      reads this
    {
      Val() == e.conn && Out() == before + e.sent
    }

    constructor (local: Address, remote: Address, paclen: L.PacLen)
      ensures sent == [] && Proper()
      ensures Val() == L.Conn(L.Disconnected, 0, 0, 0, 0, false, false, map[], [], [], false, paclen)
    {
      this.local, this.remote, this.paclen := local, remote, paclen;
      state := L.Disconnected;
      vs, vr, va, retryCount := 0, 0, 0, 0;
      t1, t3, peerBusy := false, false, false;
      unacked, txQueue, rxQueue, sent := map[], [], [], [];
    }

    method Send(f: Frame)
      requires Proper() && Outgoing(f, local, remote)
      modifies this`sent
      ensures Proper()
      ensures sent == old(sent) + [f]
      ensures Out() == old(Out()) + [View(f)]
    {
      sent := sent + [f];
      ViewAllSnoc(old(sent), f);
    }

    /** Remember an I frame under its number. */
    method Store(k: L.SeqNo, f: Frame)
      requires TypeOf(f.control) == TI
      requires Proper() && Outgoing(f, local, remote)
      modifies this`unacked
      ensures Proper()
      ensures unacked.Keys == old(unacked.Keys) + {k}
      ensures ViewMap(unacked) == old(ViewMap(unacked))[k := ViewI(f)]
    {
      assert ViewMap(unacked[k := f]) == ViewMap(unacked)[k := ViewI(f)];
      unacked := unacked[k := f];
    }

    // ---- transmit window ---------------------------------------------------------------------------

    /** Advance V(A) to `nr`, discarding what it acknowledges. */
    method UpdateVa(nr: L.SeqNo)
      requires Proper()
      modifies this`va, this`unacked
      ensures Proper()
      ensures Val() == L.UpdateVa(old(Val()), nr)
    {
      var s := va;
      while s != nr
        invariant va == old(va) && Proper()
        invariant L.DropAcked(ViewMap(unacked), s, nr) == L.DropAcked(old(ViewMap(unacked)), va, nr)
        decreases L.Dist(s, nr)
      {
        assert ViewMap(unacked - {s}) == ViewMap(unacked) - {s};
        L.DistNext(s, nr);
        unacked := unacked - {s};
        s := L.Next(s);
      }
      va := nr;
    }

    method MakeIFrame(data: Bytes) returns (f: Frame)
      ensures TypeOf(f.control) == TI && ViewI(f) == View(f) == L.IMake(vs, vr, data)
      ensures Outgoing(f, local, remote)
    {
      f := IFrame(Bare(remote), Bare(local), vs, vr, data);
      IFrames(local, remote, vs, vr, data);
    }

    /** One pass of the pump loop: the oldest queued piece becomes I frame V(S). */
    method SendNext()
      requires txQueue != []
      requires Proper()
      modifies this`unacked, this`vs, this`txQueue, this`t1, this`sent
      ensures Proper()
      ensures ViewMap(unacked) == old(ViewMap(unacked))[old(vs) := L.IMake(old(vs), vr, old(txQueue)[0])]
      ensures vs == L.Next(old(vs)) && txQueue == old(txQueue)[1..] && t1
      ensures Out() == old(Out()) + [L.IMake(old(vs), vr, old(txQueue)[0])]
    {
      var data := txQueue[0];
      txQueue := txQueue[1..];
      var f := MakeIFrame(data);
      Store(vs, f);
      vs := L.Next(vs);
      Send(f);
      if !t1 { t1 := true; }
    }

    /** Send as many queued pieces as the window allows. */
    method PumpTx()
      requires Proper()
      modifies this`unacked, this`vs, this`txQueue, this`t1, this`sent
      ensures Proper()
      ensures Did(L.PumpTx(old(Val())), old(Out()))
    {
      ghost var goal := L.After(Out(), L.PumpTx(Val()));
      if state != L.Connected || peerBusy {
        assert Out() + [] == Out();
        return;
      }
      while txQueue != []
        invariant L.After(Out(), L.PumpTx(Val())) == goal && Proper()
        decreases |txQueue|
      {
        if L.Dist(va, vs) >= L.WINDOW { break; }
        L.PumpOnce(Val(), Out());
        ghost var c := Val();
        SendNext();
        assert Val() == L.SendNext(c);
      }
      assert L.PumpBlocked(Val());
      assert Out() + [] == Out();
    }

    /** One frame of the buffer goes out again, its N(R) brought up to date. */
    method Resend(k: L.SeqNo)
      requires k in unacked
      requires Proper()
      modifies this`unacked, this`sent
      ensures Proper()
      ensures unacked.Keys == old(unacked.Keys)
      ensures Out() == old(Out()) + [L.Again(old(Val()), k)]
      ensures ViewMap(unacked) == old(ViewMap(unacked))[k := L.Again(old(Val()), k)]
    {
      var frame := unacked[k];
      RenumberedFrame(frame, local, remote, vr);
      frame := frame.(control := ReplaceNr(frame.control, vr));
      Store(k, frame);
      Send(frame);
    }

    /** Retransmit every frame of the buffer from number `nr` on. */
    method RetransmitFrom(nr: L.SeqNo)
      requires Proper()
      modifies this`unacked, this`sent
      ensures Proper()
      ensures Did(L.RetransmitFrom(old(Val()), nr), old(Out()))
    {
      ghost var goal := L.After(Out(), L.RetransmitFrom(Val(), nr));
      var s := nr;
      while s != vs
        invariant L.After(Out(), L.RetransmitFrom(Val(), s)) == goal && Proper()
        decreases L.Dist(s, vs)
      {
        L.DistNext(s, vs);
        ghost var c := Val();
        L.RetransmitOnce(c, s, Out());
        if s in unacked {
          Resend(s);
          assert Val() == c.(unacked := c.unacked[s := L.Again(c, s)]);
        }
        s := L.Next(s);
      }
      assert Out() + [] == Out();
    }

    // ---- timers and reset ----------------------------------------------------------------------------

    method StartT1()
      modifies this`t1
      ensures t1
    {
      StopT1();
      t1 := true;
    }

    method StopT1()
      modifies this`t1
      ensures !t1
    {
      t1 := false;
    }

    method StartT3()
      modifies this`t3
      ensures t3
    {
      StopT3();
      t3 := true;
    }

    method StopT3()
      modifies this`t3
      ensures !t3
    {
      t3 := false;
    }

    method ResetCounters()
      requires Proper()
      modifies this`vs, this`vr, this`va, this`retryCount, this`unacked, this`peerBusy
      ensures Proper()
      ensures Val() == L.ResetCounters(old(Val()))
    {
      vs, vr, va, retryCount := 0, 0, 0, 0;
      unacked := map[];
      peerBusy := false;
      assert ViewMap(unacked) == map[];
    }

    method LinkFailure()
      modifies this`t1, this`t3, this`state, this`rxQueue
      ensures Val() == L.TearDown(old(Val()))
    {
      StopT1();
      StopT3();
      state := L.Disconnected;
      rxQueue := rxQueue + [[]];
    }

    // ---- frames without sequence numbers -----------------------------------------------------------

    method SendU(f: Frame)
      requires f == SabmFrame(Bare(remote), Bare(local)) || f == UaFrame(Bare(remote), Bare(local)) ||
               f == DiscFrame(Bare(remote), Bare(local)) || f == DmFrame(Bare(remote), Bare(local))
      requires Proper()
      modifies this`sent
      ensures Proper()
      ensures Out() == old(Out()) + [View(f)]
      ensures Outgoing(f, local, remote)
    {
      UFrames(local, remote);
      Send(f);
    }

    method SendSabm()
      requires Proper()
      modifies this`sent
      ensures Proper()
      ensures Out() == old(Out()) + [L.SABM]
    {
      UFrames(local, remote);
      SendU(SabmFrame(Bare(remote), Bare(local)));
    }

    method SendUa()
      requires Proper()
      modifies this`sent
      ensures Proper()
      ensures Out() == old(Out()) + [L.UA]
    {
      UFrames(local, remote);
      SendU(UaFrame(Bare(remote), Bare(local)));
    }

    method SendDisc()
      requires Proper()
      modifies this`sent
      ensures Proper()
      ensures Out() == old(Out()) + [L.DISC]
    {
      UFrames(local, remote);
      SendU(DiscFrame(Bare(remote), Bare(local)));
    }

    method SendDm()
      requires Proper()
      modifies this`sent
      ensures Proper()
      ensures Out() == old(Out()) + [L.DM]
    {
      UFrames(local, remote);
      SendU(DmFrame(Bare(remote), Bare(local)));
    }

    method SendRr(pf: bool, command: bool)
      requires Proper()
      modifies this`sent
      ensures Proper()
      ensures Out() == old(Out()) + [L.RR(vr, pf, command)]
    {
      SFrames(local, remote, vr, pf, command);
      Send(RrFrame(Bare(remote), Bare(local), vr, pf, command));
    }

    method SendRej()
      requires Proper()
      modifies this`sent
      ensures Proper()
      ensures Out() == old(Out()) + [L.REJ(vr, false, false)]
    {
      SFrames(local, remote, vr, false, false);
      Send(RejFrame(Bare(remote), Bare(local), vr, false, false));
    }

    // ---- calls by the session ---------------------------------------------------------------------

    /** `connect` up to the point where it waits for the answer. */
    method Connect() returns (started: bool)
      requires Proper()
      modifies this
      ensures Proper()
      ensures Did(L.Connect(old(Val())), old(Out())) && (started <==> old(state) == L.Disconnected)
    {
      if state != L.Disconnected {
        assert Out() + [] == Out();
        return false;
      }
      state := L.AwaitingConnect;
      retryCount := 0;
      SendSabm();
      StartT1();
      return true;
    }

    method Disconnect()
      requires Proper()
      modifies this
      ensures Proper()
      ensures Did(L.Disconnect(old(Val())), old(Out()))
    {
      if state != L.Connected && state != L.AwaitingConnect {
        assert Out() + [] == Out();
        return;
      }
      StopT1();
      StopT3();
      state := L.AwaitingRelease;
      SendDisc();
      StartT1();
    }

    /** The loop that cuts `data` into pieces and queues them. */
    method Enqueue(data: Bytes)
      modifies this`txQueue
      ensures txQueue == old(txQueue) + L.Chunks(data, paclen)
    {
      var end := if |data| == 0 then 1 else |data|;
      var i := 0;
      ghost var goal, rest := txQueue + L.Chunks(data, paclen), data;
      while i < end
        modifies this`txQueue
        invariant 0 <= i
        invariant i < end ==> i <= |data| && rest == data[i..]
        invariant txQueue + (if i < end then L.Chunks(rest, paclen) else []) == goal
        decreases end - i
      {
        var j := if i + paclen < |data| then i + paclen else |data|;
        var chunk := data[i..j];
        OneMoreChunk(txQueue, rest, chunk, data[j..], paclen);
        rest := data[j..];
        txQueue := txQueue + [chunk];
        i := i + paclen;
      }
    }

    method Write(data: Bytes)
      requires Proper()
      modifies this
      ensures Proper()
      ensures Did(L.Write(old(Val()), data), old(Out()))
    {
      if state != L.Connected {
        assert Out() + [] == Out();
        return;
      }
      Enqueue(data);
      PumpTx();
    }

    method ReadNowait() returns (r: Option<Bytes>)
      modifies this`rxQueue
      ensures (Val(), r) == L.Read(old(Val()))
    {
      if rxQueue == [] { return None; }
      r := Some(rxQueue[0]);
      rxQueue := rxQueue[1..];
    }

    // ---- received frames -----------------------------------------------------------------------------

    method HandleSabm()
      requires Proper()
      modifies this
      ensures Proper()
      ensures Did(L.HandleSabm(old(Val())), old(Out()))
    {
      if state == L.Connected { ResetCounters(); }
      SendUa();
      state := L.Connected;
      ResetCounters();
      StartT3();
    }

    method HandleUa()
      requires Proper()
      modifies this
      ensures Proper()
      ensures Did(L.HandleUa(old(Val())), old(Out()))
    {
      if state == L.AwaitingConnect {
        StopT1();
        state := L.Connected;
        ResetCounters();
        StartT3();
        PumpTx();
      } else if state == L.AwaitingRelease {
        StopT1();
        state := L.Disconnected;
        rxQueue := rxQueue + [[]];
        assert Out() + [] == Out();
      } else {
        assert Out() + [] == Out();
      }
    }

    method HandleDisc()
      requires Proper()
      modifies this
      ensures Proper()
      ensures Did(L.HandleDisc(old(Val())), old(Out()))
    {
      ghost var c := Val();
      StopT1();
      StopT3();
      SendUa();
      assert Val() == c.(t1 := false, t3 := false);
      state := L.Disconnected;
      rxQueue := rxQueue + [[]];
    }

    method HandleDm()
      requires Proper()
      modifies this
      ensures Proper()
      ensures Did(L.HandleDm(old(Val())), old(Out()))
    {
      StopT1();
      StopT3();
      state := L.Disconnected;
      rxQueue := rxQueue + [[]];
      assert Out() + [] == Out();
    }

    /** The end of I and RR handling: stop T1 if all is acknowledged, then pump. */
    method AckedThenPump()
      requires Proper()
      modifies this`unacked, this`vs, this`txQueue, this`t1, this`sent
      ensures Proper()
      ensures Did(L.AckedThenPump(old(Val())), old(Out()))
    {
      if va == vs { StopT1(); }
      PumpTx();
    }

    /** The frame expected: V(R) moves on and its contents go to the session. */
    method Accept(info: Bytes)
      requires Proper()
      modifies this`vr, this`rxQueue, this`sent
      ensures Proper()
      ensures vr == L.Next(old(vr))
      ensures rxQueue == if info == [] then old(rxQueue) else old(rxQueue) + [info]
      ensures Out() == old(Out()) + [L.RR(vr, false, false)]
    {
      vr := L.Next(vr);
      if info != [] { rxQueue := rxQueue + [info]; }
      SendRr(false, false);
    }

    /** Believe N(R), then take the frame or not, and answer. */
    method ReceiveI(ns: L.SeqNo, nr: L.SeqNo, info: Bytes)
      requires Proper()
      modifies this`t3, this`va, this`unacked, this`vr, this`rxQueue, this`sent
      ensures Proper()
      ensures Val() == L.Received(old(Val()), L.IMake(ns, nr, info))
      ensures Out() == old(Out()) + [L.Reply(old(Val()), L.IMake(ns, nr, info))]
    {
      ghost var c, m := Val(), L.IMake(ns, nr, info);
      StopT3();
      StartT3();
      UpdateVa(nr);
      ghost var d := L.UpdateVa(c.(t3 := true), nr);
      assert Val() == d;
      if ns == vr {
        Accept(info);
        assert Val() == d.(vr := L.Next(c.vr), rxq := if info == [] then c.rxq else c.rxq + [info]);
      } else {
        SendRej();
        assert Val() == d;
      }
    }

    method HandleI(frame: Frame)
      requires TypeOf(frame.control) == TI
      requires Proper()
      modifies this
      ensures Proper()
      ensures Did(L.HandleI(old(Val()), ViewI(frame)), old(Out()))
    {
      if state != L.Connected {
        SendDm();
        return;
      }
      ghost var c, o, m := Val(), Out(), ViewI(frame);
      ReceiveI(Ns(frame.control), Nr(frame.control), frame.info);
      assert L.Received(c, m) == Val() && Out() == o + [L.Reply(c, m)];
      ghost var e := L.AckedThenPump(Val());
      AckedThenPump();
      assert o + [L.Reply(c, m)] + e.sent == o + ([L.Reply(c, m)] + e.sent);
    }

    method HandleRr(nr: L.SeqNo)
      requires Proper()
      modifies this
      ensures Proper()
      ensures Did(L.HandleRr(old(Val()), nr), old(Out()))
    {
      if state != L.Connected {
        assert Out() + [] == Out();
        return;
      }
      ghost var c := Val();
      peerBusy := false;
      UpdateVa(nr);
      ghost var d := L.UpdateVa(c.(peerBusy := false), nr).(t3 := true);
      if va == vs { StopT1(); }
      StopT3();
      StartT3();
      assert Val() == if d.va == d.vs then d.(t1 := false) else d;
      PumpTx();
    }

    method HandleRnr(nr: L.SeqNo)
      requires Proper()
      modifies this
      ensures Proper()
      ensures Did(L.HandleRnr(old(Val()), nr), old(Out()))
    {
      assert Out() + [] == Out();
      if state != L.Connected { return; }
      peerBusy := true;
      UpdateVa(nr);
      StopT1();
      StartT1();
    }

    method HandleRej(nr: L.SeqNo)
      requires Proper()
      modifies this
      ensures Proper()
      ensures Did(L.HandleRej(old(Val()), nr), old(Out()))
    {
      if state != L.Connected {
        assert Out() + [] == Out();
        return;
      }
      UpdateVa(nr);
      StopT1();
      RetransmitFrom(nr);
      if vs != va { StartT1(); }
    }

    /** A frame with N(R) but no information field. */
    method HandleS(ft: FrameType, nr: L.SeqNo, ghost pf: bool, ghost command: bool)
      requires (ft == TRR || ft == TRNR || ft == TREJ)
      requires Proper()
      modifies this
      ensures Proper()
      ensures var m := if ft == TRR then L.RR(nr, pf, command)
                       else if ft == TRNR then L.RNR(nr, pf, command) else L.REJ(nr, pf, command);
              Did(L.Handle(old(Val()), m), old(Out()))
    {
      if ft == TRR {
        HandleRr(nr);
      } else if ft == TRNR {
        HandleRnr(nr);
      } else {
        HandleRej(nr);
      }
    }

    method HandleU(ft: FrameType)
      requires ft == TSABM || ft == TUA || ft == TDISC || ft == TDM
      requires Proper()
      modifies this
      ensures Proper()
      ensures var m := if ft == TSABM then L.SABM else if ft == TUA then L.UA
                       else if ft == TDISC then L.DISC else L.DM;
              Did(L.Handle(old(Val()), m), old(Out()))
    {
      if ft == TSABM {
        HandleSabm();
      } else if ft == TUA {
        HandleUa();
      } else if ft == TDISC {
        HandleDisc();
      } else {
        HandleDm();
      }
    }

    /** Every received frame, told apart by its control octet. */
    method HandleFrame(frame: Frame)
      requires Proper()
      modifies this
      ensures Proper()
      ensures Did(L.Handle(old(Val()), View(frame)), old(Out()))
    {
      var ft := TypeOf(frame.control);
      if ft == TSABM || ft == TUA || ft == TDISC || ft == TDM {
        HandleU(ft);
      } else if ft == TI {
        HandleI(frame);
      } else if ft == TRR || ft == TRNR || ft == TREJ {
        HandleS(ft, Nr(frame.control), Pf(frame.control), frame.dest.ch);
      } else {
        HandleRest(frame);
      }
    }

    /** A UI frame is for the session; anything else is ignored. */
    method HandleRest(frame: Frame)
      requires var m := View(frame); m.UI? || m.Other?
      requires Proper()
      modifies this`rxQueue
      ensures Proper()
      ensures Did(L.Handle(old(Val()), View(frame)), old(Out()))
    {
      assert Out() + [] == Out();
      if TypeOf(frame.control) == TUI && frame.info != [] { rxQueue := rxQueue + [frame.info]; }
    }

    // ---- expiry --------------------------------------------------------------------------------------------

    /** The T1 task wakes up: from here on it no longer counts as running. */
    method T1Expire()
      requires t1
      requires Proper()
      modifies this
      ensures Proper()
      ensures Did(L.T1Expire(old(Val())), old(Out()))
    {
      ghost var c := Val();
      t1 := false;
      assert Val().(t1 := true) == c;
      if state == L.AwaitingConnect {
        T1Connecting();
      } else if state == L.AwaitingRelease {
        T1Releasing();
      } else if state == L.Connected {
        if vs != va { T1Outstanding(); } else { T1Idle(); }
      } else {
        assert Out() + [] == Out();
      }
    }

    /** Connected with frames outstanding: resend them or give the link up. */
    method T1Outstanding()
      requires !t1 && state == L.Connected && vs != va
      requires Proper()
      modifies this
      ensures Proper()
      ensures Did(L.T1Expire(old(Val()).(t1 := true)), old(Out()))
    {
      ghost var c := Val();
      retryCount := retryCount + 1;
      ghost var c1 := c.(retries := c.retries + 1);
      assert Val() == c1;
      if retryCount > L.MAX_RETRIES {
        LinkFailure();
        assert Out() + [] == Out();
      } else {
        ghost var e := L.RetransmitFrom(c1, c1.va);
        RetransmitFrom(va);
        assert Val() == e.conn;
        StartT1();
        assert Val() == e.conn.(t1 := true);
      }
    }

    /** Connected with nothing outstanding: poll. */
    method T1Idle()
      requires !t1 && state == L.Connected && vs == va
      requires Proper()
      modifies this
      ensures Proper()
      ensures Did(L.T1Expire(old(Val()).(t1 := true)), old(Out()))
    {
      SendRr(true, true);
      StartT1();
    }

    /** No UA for our SABM: ask again or give up. */
    method T1Connecting()
      requires !t1 && state == L.AwaitingConnect
      requires Proper()
      modifies this
      ensures Proper()
      ensures Did(L.T1Expire(old(Val()).(t1 := true)), old(Out()))
    {
      retryCount := retryCount + 1;
      if retryCount > L.MAX_RETRIES {
        state := L.Disconnected;
        assert Out() + [] == Out();
      } else {
        SendSabm();
        StartT1();
      }
    }

    /** No answer to our DISC: ask again or give up. */
    method T1Releasing()
      requires !t1 && state == L.AwaitingRelease
      requires Proper()
      modifies this
      ensures Proper()
      ensures Did(L.T1Expire(old(Val()).(t1 := true)), old(Out()))
    {
      retryCount := retryCount + 1;
      if retryCount > L.MAX_RETRIES {
        state := L.Disconnected;
        rxQueue := rxQueue + [[]];
        assert Out() + [] == Out();
      } else {
        SendDisc();
        StartT1();
      }
    }

    method T3Expire()
      requires t3
      requires Proper()
      modifies this
      ensures Proper()
      ensures Did(L.T3Expire(old(Val())), old(Out()))
    {
      t3 := false;
      if state == L.Connected {
        SendRr(true, true);
        StartT1();
      } else {
        assert Out() + [] == Out();
      }
    }

    /** Every frame ever sent goes from this station to the other, directly. */
    lemma SentAddressed()
      requires Proper()
      ensures forall f :: f in sent ==>
                f.dest.callsign == remote.callsign && f.dest.ssid == remote.ssid &&
                f.src.callsign == local.callsign && f.src.ssid == local.ssid && f.repeaters == []
    {
      forall f | f in sent ensures Outgoing(f, local, remote) {
        var i :| 0 <= i < |sent| && sent[i] == f;
        assert Outgoing(sent[i], local, remote);
      }
    }

    /** What the peer reads: between stations with canonical addresses every frame ever sent survives the codec,
        and the frames decoded are, in order, the ones the machine has sent. */
    lemma SentSurvives()
      requires Proper() && Canonical(Bare(local)) && Canonical(Bare(remote))
      ensures forall i :: 0 <= i < |sent| ==>
                DecodeFrame(EncodeFrame(sent[i])) == Ok(WithEnds(sent[i])) && View(WithEnds(sent[i])) == Out()[i]
    {
      forall i | 0 <= i < |sent|
        ensures DecodeFrame(EncodeFrame(sent[i])) == Ok(WithEnds(sent[i])) && View(WithEnds(sent[i])) == Out()[i]
      {
        OutgoingSurvives(sent[i], local, remote);
      }
    }
  }
}
