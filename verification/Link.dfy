/** The AX.25 connection as a machine on values: what every event does to the connection
    and which frames it sends. `Connection.AX25Connection` is proved to do exactly this;
    the protocol theorems are about these functions. A frame is seen here only through what
    the machine reads of it: its type, N(S), N(R), P/F and information field. */
module Link {
  import opened Common

  const MOD := 8
  const WINDOW := 7
  const MAX_RETRIES := 10

  type SeqNo = n: nat | n < 8

  type PacLen = n: nat | 0 < n witness 236

  datatype ConnState = Disconnected | AwaitingConnect | Connected | AwaitingRelease

  datatype Msg =
    | I(ns: SeqNo, nr: SeqNo, pf: bool, info: Bytes)
    | RR(nr: SeqNo, pf: bool, command: bool)
    | RNR(nr: SeqNo, pf: bool, command: bool)
    | REJ(nr: SeqNo, pf: bool, command: bool)
    | UI(info: Bytes)
    | SABM | UA | DISC | DM | Other

  type IMsg = m: Msg | m.I? witness I(0, 0, false, [])

  datatype Conn = Conn(
    state: ConnState,
    vs: SeqNo, vr: SeqNo, va: SeqNo,
    retries: nat,
    t1: bool, t3: bool,
    unacked: map<SeqNo, IMsg>,
    txq: seq<Bytes>, rxq: seq<Bytes>,
    peerBusy: bool,
    paclen: PacLen)

  /** What an event leaves behind: the new connection and the frames sent, in order. */
  datatype Effect = Effect(conn: Conn, sent: seq<Msg>)

  function Next(n: SeqNo): SeqNo { (n + 1) % MOD }

  /** (to - from) mod 8: how far a walk by `Next` goes. */
  function Dist(from: SeqNo, to: SeqNo): SeqNo {
    if from <= to then to - from else to + MOD - from
  }

  lemma DistNext(from: SeqNo, to: SeqNo)
    requires from != to
    ensures Dist(Next(from), to) == Dist(from, to) - 1
  {}

  // ---- transmit window -------------------------------------------------------------

  /** `m` without the keys met on the walk from `seq` up to `nr`. */
  function DropAcked(m: map<SeqNo, IMsg>, seq_: SeqNo, nr: SeqNo): map<SeqNo, IMsg>
    decreases Dist(seq_, nr)
  {
    if seq_ == nr then m
    else
      DistNext(seq_, nr);
      DropAcked(m - {seq_}, Next(seq_), nr)
  }

  function UpdateVa(c: Conn, nr: SeqNo): Conn {
    c.(va := nr, unacked := DropAcked(c.unacked, c.va, nr))
  }

  predicate PumpBlocked(c: Conn) {
    c.state != Connected || c.peerBusy || c.txq == [] || Dist(c.va, c.vs) >= WINDOW
  }

  /** A new I frame. */
  function IMake(ns: SeqNo, nr: SeqNo, info: Bytes): IMsg { I(ns, nr, false, info) }

  /** The oldest queued piece as I frame V(S). */
  function NextFrame(c: Conn): IMsg
    requires c.txq != []
  {
    IMake(c.vs, c.vr, c.txq[0])
  }

  function SendNext(c: Conn): Conn
    requires c.txq != []
  {
    c.(unacked := c.unacked[c.vs := NextFrame(c)], vs := Next(c.vs), txq := c.txq[1..], t1 := true)
  }

  function PumpTx(c: Conn): Effect
    decreases |c.txq|
  {
    if PumpBlocked(c) then Effect(c, [])
    else
      var rest := PumpTx(SendNext(c));
      Effect(rest.conn, [NextFrame(c)] + rest.sent)
  }

  /** The same I frame acknowledging `nr`. */
  function WithNr(m: IMsg, nr: SeqNo): IMsg { I(m.ns, nr, m.pf, m.info) }

  function RetransmitFrom(c: Conn, seq_: SeqNo): Effect
    decreases Dist(seq_, c.vs)
  {
    if seq_ == c.vs then Effect(c, [])
    else
      DistNext(seq_, c.vs);
      if seq_ in c.unacked then
        var f := WithNr(c.unacked[seq_], c.vr);
        var rest := RetransmitFrom(c.(unacked := c.unacked[seq_ := f]), Next(seq_));
        Effect(rest.conn, [f] + rest.sent)
      else
        RetransmitFrom(c, Next(seq_))
  }

  function ResetCounters(c: Conn): Conn {
    c.(vs := 0, vr := 0, va := 0, retries := 0, unacked := map[], peerBusy := false)
  }

  /** All timers off, session told: where DISC, DM and link failure lead. */
  function TearDown(c: Conn): Conn {
    c.(t1 := false, t3 := false, state := Disconnected, rxq := c.rxq + [[]])
  }

  // ---- calls by the session ---------------------------------------------------------

  function Connect(c: Conn): Effect {
    if c.state != Disconnected then Effect(c, [])
    else Effect(c.(state := AwaitingConnect, retries := 0, t1 := true), [SABM])
  }

  function Disconnect(c: Conn): Effect {
    if c.state != Connected && c.state != AwaitingConnect then Effect(c, [])
    else Effect(c.(t3 := false, state := AwaitingRelease, t1 := true), [DISC])
  }

  /** `data` cut into pieces of `paclen` octets; the empty string is one empty piece. */
  function Chunks(data: Bytes, paclen: PacLen): (r: seq<Bytes>)
    ensures Flat(r) == data
    ensures r != [] && forall k :: 0 <= k < |r| ==> |r[k]| <= paclen
    decreases |data|
  {
    if |data| <= paclen then FlatOne(data); [data]
    else
      var rest := Chunks(data[paclen..], paclen);
      assert ([data[..paclen]] + rest)[1..] == rest;
      [data[..paclen]] + rest
  }

  /** Every piece before the last is full, and only empty data gives an empty piece, a single one. */
  lemma {:induction false} ChunkSizes(data: Bytes, paclen: PacLen)
    ensures var r := Chunks(data, paclen);
            && (forall k :: 0 <= k < |r| - 1 ==> |r[k]| == paclen)
            && (data != [] ==> 0 < |r[|r| - 1]| <= paclen)
            && (data == [] ==> r == [[]])
    decreases |data|
  {
    if |data| > paclen { ChunkSizes(data[paclen..], paclen); }
  }

  lemma NextChunk(data: Bytes, chunk: Bytes, rest: Bytes, paclen: PacLen)
    requires data == chunk + rest && |chunk| == if |data| <= paclen then |data| else paclen
    ensures Chunks(data, paclen) == [chunk] + if rest == [] then [] else Chunks(rest, paclen)
  {
    if |data| > paclen {
      assert data[..paclen] == chunk && data[paclen..] == rest;
    } else {
      assert chunk == data;
    }
  }

  function Write(c: Conn, data: Bytes): Effect {
    if c.state != Connected then Effect(c, [])
    else PumpTx(c.(txq := c.txq + Chunks(data, c.paclen)))
  }

  // ---- received frames ---------------------------------------------------------------

  function HandleSabm(c: Conn): Effect {
    Effect(ResetCounters(c).(state := Connected, t3 := true), [UA])
  }

  function HandleUa(c: Conn): Effect {
    if c.state == AwaitingConnect then
      PumpTx(ResetCounters(c).(t1 := false, state := Connected, t3 := true))
    else if c.state == AwaitingRelease then
      Effect(c.(t1 := false, state := Disconnected, rxq := c.rxq + [[]]), [])
    else Effect(c, [])
  }

  function HandleDisc(c: Conn): Effect { Effect(TearDown(c), [UA]) }

  function HandleDm(c: Conn): Effect { Effect(TearDown(c), []) }

  /** Stop T1 when nothing is outstanding, then send what the window allows. */
  function AckedThenPump(c: Conn): Effect {
    PumpTx(if c.va == c.vs then c.(t1 := false) else c)
  }

  /** A connected station after an I frame, before its window is pumped. */
  function Received(c: Conn, m: IMsg): Conn {
    var c1 := UpdateVa(c.(t3 := true), m.nr);
    if m.ns != c.vr then c1
    else c1.(vr := Next(c.vr), rxq := if m.info == [] then c.rxq else c.rxq + [m.info])
  }

  /** Its answer: RR for the frame expected, REJ for any other. */
  function Reply(c: Conn, m: IMsg): Msg {
    if m.ns != c.vr then REJ(c.vr, false, false) else RR(Next(c.vr), false, false)
  }

  function HandleI(c: Conn, m: IMsg): Effect {
    if c.state != Connected then Effect(c, [DM])
    else
      var e := AckedThenPump(Received(c, m));
      Effect(e.conn, [Reply(c, m)] + e.sent)
  }

  function HandleRr(c: Conn, nr: SeqNo): Effect {
    if c.state != Connected then Effect(c, [])
    else AckedThenPump(UpdateVa(c.(peerBusy := false), nr).(t3 := true))
  }

  function HandleRnr(c: Conn, nr: SeqNo): Effect {
    if c.state != Connected then Effect(c, [])
    else Effect(UpdateVa(c.(peerBusy := true), nr).(t1 := true), [])
  }

  function HandleRej(c: Conn, nr: SeqNo): Effect {
    if c.state != Connected then Effect(c, [])
    else
      var e := RetransmitFrom(UpdateVa(c, nr).(t1 := false), nr);
      Effect(if e.conn.vs != e.conn.va then e.conn.(t1 := true) else e.conn, e.sent)
  }

  function Handle(c: Conn, m: Msg): Effect {
    match m
    case SABM => HandleSabm(c)
    case UA => HandleUa(c)
    case DISC => HandleDisc(c)
    case DM => HandleDm(c)
    case I(_, _, _, _) => HandleI(c, m)
    case RR(nr, _, _) => HandleRr(c, nr)
    case RNR(nr, _, _) => HandleRnr(c, nr)
    case REJ(nr, _, _) => HandleRej(c, nr)
    case UI(info) => Effect(if info == [] then c else c.(rxq := c.rxq + [info]), [])
    case Other => Effect(c, [])
  }

  // ---- timers --------------------------------------------------------------------------

  /** T1 runs out. The task that slept is over, so T1 is off unless it is started again. */
  function T1Expire(c0: Conn): Effect
    requires c0.t1
  {
    var c := c0.(t1 := false);
    match c.state
    case AwaitingConnect =>
      var c1 := c.(retries := c.retries + 1);
      if c1.retries > MAX_RETRIES then Effect(c1.(state := Disconnected), [])
      else Effect(c1.(t1 := true), [SABM])
    case AwaitingRelease =>
      var c1 := c.(retries := c.retries + 1);
      if c1.retries > MAX_RETRIES then
        Effect(c1.(state := Disconnected, rxq := c1.rxq + [[]]), [])
      else Effect(c1.(t1 := true), [DISC])
    case Connected =>
      if c.vs != c.va then
        var c1 := c.(retries := c.retries + 1);
        if c1.retries > MAX_RETRIES then Effect(TearDown(c1), [])
        else
          var e := RetransmitFrom(c1, c1.va);
          Effect(e.conn.(t1 := true), e.sent)
      else Effect(c.(t1 := true), [RR(c.vr, true, true)])
    case Disconnected => Effect(c, [])
  }

  function T3Expire(c0: Conn): Effect
    requires c0.t3
  {
    var c := c0.(t3 := false);
    if c.state == Connected then Effect(c.(t1 := true), [RR(c.vr, true, true)])
    else Effect(c, [])
  }

  // ---- reading ---------------------------------------------------------------------------

  /** `read_nowait`: the oldest piece received, if there is one. */
  function Read(c: Conn): (Conn, Option<Bytes>) {
    if c.rxq == [] then (c, None) else (c.(rxq := c.rxq[1..]), Some(c.rxq[0]))
  }

  // ---- frame facts of the retransmission walk -------------------------------------------

  /** The walk touches nothing but the stored N(R) values. */
  lemma {:induction false} RetransmitFrame(c: Conn, seq_: SeqNo)
    ensures var e := RetransmitFrom(c, seq_);
            && e.conn == c.(unacked := e.conn.unacked)
            && e.conn.unacked.Keys == c.unacked.Keys
    decreases Dist(seq_, c.vs)
  {
    if seq_ != c.vs {
      DistNext(seq_, c.vs);
      if seq_ in c.unacked {
        var f := WithNr(c.unacked[seq_], c.vr);
        RetransmitFrame(c.(unacked := c.unacked[seq_ := f]), Next(seq_));
      } else {
        RetransmitFrame(c, Next(seq_));
      }
    }
  }

  /** Pumping leaves everything alone but the send side, and arms T1 exactly when it sends. */
  lemma {:induction false} PumpFrame(c: Conn)
    ensures var e := PumpTx(c);
            && e.conn == c.(unacked := e.conn.unacked, vs := e.conn.vs, txq := e.conn.txq, t1 := e.conn.t1)
            && e.conn.t1 == (c.t1 || !PumpBlocked(c))
            && (e.sent == [] <==> PumpBlocked(c))
            && (PumpBlocked(c) ==> e.conn == c)
            && PumpBlocked(e.conn)
            && |e.sent| + |e.conn.txq| == |c.txq|
            && (!PumpBlocked(c) ==> e.conn.vs != e.conn.va)
    decreases |c.txq|
  {
    if !PumpBlocked(c) {
      PumpFrame(SendNext(c));
    }
  }

  // ---- the loops, one pass at a time ------------------------------------------------------

  /** The effect `e` of what is still to be done, after `out` has been sent. */
  function After(out: seq<Msg>, e: Effect): Effect { Effect(e.conn, out + e.sent) }

  lemma PumpOnce(c: Conn, out: seq<Msg>)
    requires !PumpBlocked(c)
    ensures After(out, PumpTx(c)) == After(out + [NextFrame(c)], PumpTx(SendNext(c)))
  {
    var rest := PumpTx(SendNext(c));
    assert out + ([NextFrame(c)] + rest.sent) == out + [NextFrame(c)] + rest.sent;
  }

  /** Frame `k` as it goes out again, and the connection that remembers it so. */
  function Again(c: Conn, k: SeqNo): IMsg
    requires k in c.unacked
  {
    WithNr(c.unacked[k], c.vr)
  }

  lemma RetransmitOnce(c: Conn, k: SeqNo, out: seq<Msg>)
    requires k != c.vs
    ensures After(out, RetransmitFrom(c, k)) ==
            if k in c.unacked
            then After(out + [Again(c, k)], RetransmitFrom(c.(unacked := c.unacked[k := Again(c, k)]), Next(k)))
            else After(out, RetransmitFrom(c, Next(k)))
  {
    if k in c.unacked {
      var rest := RetransmitFrom(c.(unacked := c.unacked[k := Again(c, k)]), Next(k));
      assert out + ([Again(c, k)] + rest.sent) == out + [Again(c, k)] + rest.sent;
    }
  }
}
