/** Progress does not help: a link on which every piece arrives, each after a single timeout, is dropped
    at the eleventh, since acknowledgements do not clear the retry counter. */
module SlowLink {
  import opened Common
  import opened Link
  import opened Timers

  /** Connected, everything acknowledged and nothing queued. */
  predicate Clear(c: Conn) {
    c.state == Connected && c.va == c.vs && c.txq == [] && !c.peerBusy
  }

  /** One octet waits for its acknowledgement. */
  predicate OneOut(c: Conn, k: SeqNo) {
    c.state == Connected && c.va == k && c.vs == Next(k) && c.txq == [] && c.t1 && !c.peerBusy
  }

  const ONE: Bytes := [0]

  /** One octet is written, T1 runs out once, and then the octet is acknowledged. */
  function SlowPiece(c: Conn): Conn {
    Apply(Apply(Apply(c, DoWrite(ONE)), T1Out), Receive(RR(Next(c.vs), false, false)))
  }

  function Repeat(step: Conn -> Conn, c: Conn, n: nat): Conn
    decreases n
  {
    if n == 0 then c else step(Repeat(step, c, n - 1))
  }

  function SlowPieces(c: Conn, n: nat): Conn { Repeat(SlowPiece, c, n) }

  lemma Written(c: Conn)
    requires Clear(c)
    ensures OneOut(Apply(c, DoWrite(ONE)), c.vs) && Apply(c, DoWrite(ONE)).retries == c.retries
  {
    var c1 := c.(txq := c.txq + Chunks(ONE, c.paclen));
    assert c1.txq == [ONE];
    assert PumpTx(c1).conn == SendNext(c1);
  }

  lemma TimedOut(c: Conn, k: SeqNo)
    requires OneOut(c, k)
    ensures var d := Apply(c, T1Out);
            if c.retries < MAX_RETRIES then OneOut(d, k) && d.retries == c.retries + 1
            else d.state == Disconnected
  {
    RetransmitFrame(c.(t1 := false, retries := c.retries + 1), k);
  }

  lemma Acknowledged(c: Conn, k: SeqNo)
    requires OneOut(c, k)
    ensures var d := Apply(c, Receive(RR(Next(k), false, false)));
            Clear(d) && d.vs == Next(k) && d.retries == c.retries
  {
    PumpFrame(UpdateVa(c.(peerBusy := false), Next(k)).(t3 := true, t1 := false));
  }

  lemma SlowPieceCleared(c: Conn)
    requires Clear(c) && c.retries < MAX_RETRIES
    ensures Clear(SlowPiece(c)) && SlowPiece(c).retries == c.retries + 1 && SlowPiece(c).vs == Next(c.vs)
  {
    Written(c);
    TimedOut(Apply(c, DoWrite(ONE)), c.vs);
    Acknowledged(Apply(Apply(c, DoWrite(ONE)), T1Out), c.vs);
  }

  /** Every step ends with everything acknowledged, and costs a retry. */
  ghost predicate CostsOne(step: Conn -> Conn) {
    forall c :: Clear(c) && c.retries < MAX_RETRIES ==> Clear(step(c)) && step(c).retries == c.retries + 1
  }

  lemma {:induction false} RepeatCosts(step: Conn -> Conn, c: Conn, n: nat)
    requires CostsOne(step) && Clear(c) && c.retries == 0 && n <= MAX_RETRIES
    ensures Clear(Repeat(step, c, n)) && Repeat(step, c, n).retries == n
    decreases n
  {
    if n > 0 { RepeatCosts(step, c, n - 1); }
  }

  lemma SlowPiecesCleared(c: Conn, n: nat)
    requires Clear(c) && c.retries == 0 && n <= MAX_RETRIES
    ensures Clear(SlowPieces(c, n)) && SlowPieces(c, n).retries == n
  {
    forall d | Clear(d) && d.retries < MAX_RETRIES
      ensures Clear(SlowPiece(d)) && SlowPiece(d).retries == d.retries + 1
    {
      SlowPieceCleared(d);
    }
    RepeatCosts(SlowPiece, c, n);
  }

  /** Ten pieces get through, every one acknowledged; the eleventh timeout drops the link. (`n` stands for 10:
      ten rounds are counted, not carried out.) */
  lemma SteadyLinkDropped(c: Conn, n: nat)
    requires Clear(c) && c.retries == 0 && n == 10
    ensures Clear(SlowPieces(c, n))
    ensures Apply(Apply(SlowPieces(c, n), DoWrite(ONE)), T1Out).state == Disconnected
  {
    SlowPiecesCleared(c, n);
    var d := SlowPieces(c, n);
    Written(d);
    TimedOut(Apply(d, DoWrite(ONE)), d.vs);
  }
}
