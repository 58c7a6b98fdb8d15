/** The symbol clock of the Bell 202 modem, in exact arithmetic: how many samples each symbol takes, and
    how a demodulator with the same clock cuts a sample stream into symbol windows. */
module SymbolClock {
  import opened Common

  /** Samples per symbol. */
  function PerSymbol(rate: nat, baud: nat): (r: real)
    requires rate > 0 && baud > 0
    ensures r > 0.0
  {
    rate as real / baud as real
  }

  /** Rounding toward zero. */
  function Truncate(x: real): int {
    if x >= 0.0 then x.Floor else -(-x).Floor
  }

  /** The length of the next symbol, from the fraction left over before it. */
  function Len(frac: real, per: real): (n: nat)
    ensures n >= 1
  {
    var n := Truncate(frac + per);
    if n <= 0 then 1 else n
  }

  function Next(frac: real, per: real): real { frac + per - Len(frac, per) as real }

  /** The fraction left over after `k` symbols. */
  function FracAfter(frac: real, per: real, k: nat): real {
    if k == 0 then frac else Next(FracAfter(frac, per, k - 1), per)
  }

  /** How many samples the first `k` symbols take. */
  function Total(frac: real, per: real, k: nat): nat {
    if k == 0 then 0 else Total(frac, per, k - 1) + Len(FracAfter(frac, per, k - 1), per)
  }

  // ---- no drift --------------------------------------------------------------------------------------

  /** The time of `k` symbols, in samples. */
  function Span(k: nat, per: real): real {
    if k == 0 then 0.0 else Span(k - 1, per) + per
  }

  lemma {:induction false} SpanIsProduct(k: nat, per: real)
    ensures Span(k, per) == k as real * per
  {
    if k > 0 {
      SpanIsProduct(k - 1, per);
      assert k as real * per == (k - 1) as real * per + per;
    }
  }

  lemma FractionStays(frac: real, per: real)
    requires 0.0 <= frac < 1.0 <= per
    ensures 0.0 <= Next(frac, per) < 1.0
  {}

  lemma {:induction false} ClockKeepsTime(per: real, k: nat)
    requires per >= 1.0
    ensures FracAfter(0.0, per, k) + Total(0.0, per, k) as real == Span(k, per)
    ensures 0.0 <= FracAfter(0.0, per, k) < 1.0
  {
    if k > 0 {
      ClockKeepsTime(per, k - 1);
      FractionStays(FracAfter(0.0, per, k - 1), per);
    }
  }

  lemma FloorOfQuotient(n: nat, d: nat)
    requires d > 0
    ensures (n as real / d as real).Floor == n / d
  {
    var q, r := n / d, n % d;
    var x := n as real / d as real;
    assert n as real == q as real * d as real + r as real;
    assert x * d as real == n as real;
    Between(x, q, r, d);
  }

  lemma Between(x: real, q: nat, r: nat, d: nat)
    requires 0 <= r < d && x * d as real == q as real * d as real + r as real
    ensures q as real <= x < q as real + 1.0
  {
    var e := x - q as real;
    assert e * d as real == r as real;
    assert e < 0.0 ==> e * d as real < 0.0;
    assert e >= 1.0 ==> e * d as real >= d as real;
  }

  /** With at least one sample per symbol, the first k symbols take floor(k * rate / baud) samples:
      the clock is never off by a whole sample, however long the transmission. */
  lemma SymbolsKeepTime(rate: nat, baud: nat, k: nat)
    requires rate >= baud > 0
    ensures Total(0.0, PerSymbol(rate, baud), k) == k * rate / baud
  {
    var per := PerSymbol(rate, baud);
    AtLeastOne(rate, baud);
    ClockKeepsTime(per, k);
    SpanFloor(k, rate, baud);
    FloorOfSum(FracAfter(0.0, per, k), Total(0.0, per, k));
  }

  lemma SpanFloor(k: nat, rate: nat, baud: nat)
    requires rate > 0 && baud > 0
    ensures Span(k, PerSymbol(rate, baud)).Floor == k * rate / baud
  {
    SpanIsProduct(k, PerSymbol(rate, baud));
    Quotient(k, rate, baud);
    FloorOfQuotient(k * rate, baud);
  }

  lemma FloorOfSum(frac: real, n: nat)
    requires 0.0 <= frac < 1.0
    ensures (frac + n as real).Floor == n
  {}

  lemma AtLeastOne(rate: nat, baud: nat)
    requires rate >= baud > 0
    ensures PerSymbol(rate, baud) >= 1.0
  {
    var per := PerSymbol(rate, baud);
    assert per * baud as real == rate as real;
    assert per < 1.0 ==> per * baud as real < baud as real;
  }

  lemma Quotient(k: nat, rate: nat, baud: nat)
    requires rate > 0 && baud > 0
    ensures (k * rate) as real / baud as real == k as real * PerSymbol(rate, baud)
  {
    assert (k * rate) as real == k as real * rate as real;
  }

  /** With less, every symbol still takes one: the clock runs away. */
  lemma {:induction false} SlowClock(per: real, k: nat)
    requires 0.0 < per < 1.0
    ensures Total(0.0, per, k) == k
    ensures FracAfter(0.0, per, k) <= 0.0
  {
    if k > 0 { SlowClock(per, k - 1); }
  }

  // ---- windows -----------------------------------------------------------------------------------------

  /** The windows cut off a sample buffer, the samples left, and the fraction left. The clock advances
      once more for the window that could not be filled. */
  datatype Windows<T> = Windows(windows: seq<seq<T>>, rest: seq<T>, frac: real)

  function CutWindows<T>(buf: seq<T>, frac: real, per: real): Windows<T>
    decreases |buf|
  {
    var n := Len(frac, per);
    if |buf| < n then Windows([], buf, Next(frac, per))
    else
      var later := CutWindows(buf[n..], Next(frac, per), per);
      Windows([buf[..n]] + later.windows, later.rest, later.frac)
  }

  /** The windows follow the clock. */
  ghost predicate Clocked<T>(windows: seq<seq<T>>, frac: real, per: real) {
    forall k :: 0 <= k < |windows| ==> |windows[k]| == Len(FracAfter(frac, per, k), per)
  }

  lemma {:induction false} FracShift(frac: real, per: real, k: nat)
    ensures FracAfter(Next(frac, per), per, k) == FracAfter(frac, per, k + 1)
  {
    if k > 0 { FracShift(frac, per, k - 1); }
  }

  /** A stream made with the clock is cut into the windows it was made of. */
  lemma {:induction false} CutClocked<T>(windows: seq<seq<T>>, frac: real, per: real)
    requires Clocked(windows, frac, per)
    ensures CutWindows(Flat(windows), frac, per).windows == windows
    ensures CutWindows(Flat(windows), frac, per).rest == []
    decreases |windows|
  {
    if windows != [] {
      var n := Len(frac, per);
      var buf, later := Flat(windows), windows[1..];
      assert FracAfter(frac, per, 0) == frac;
      assert buf[..n] == windows[0] && buf[n..] == Flat(later);
      forall k | 0 <= k < |later| ensures |later[k]| == Len(FracAfter(Next(frac, per), per, k), per) {
        FracShift(frac, per, k);
        assert later[k] == windows[k + 1];
      }
      CutClocked(later, Next(frac, per), per);
    }
  }

  // ---- in pieces ---------------------------------------------------------------------------------------

  /** The symbols are a whole number of samples long. */
  predicate Divides(rate: nat, baud: nat)
    requires baud > 0
  {
    rate % baud == 0
  }

  lemma WholeSymbols(rate: nat, baud: nat)
    requires rate >= baud > 0 && Divides(rate, baud)
    ensures Len(0.0, PerSymbol(rate, baud)) == rate / baud && Next(0.0, PerSymbol(rate, baud)) == 0.0
  {
    FloorOfQuotient(rate, baud);
    AtLeastOne(rate, baud);
    var per := PerSymbol(rate, baud);
    assert rate as real == (rate / baud) as real * baud as real;
    assert per == (rate / baud) as real;
  }

  lemma WholeLen(frac: real, n: nat)
    requires 0.0 <= frac < 1.0 && n >= 1
    ensures Len(frac, n as real) == n && Next(frac, n as real) == frac
  {}

  /** A call that completes no symbol leaves the clock alone exactly when the baud rate divides the sample
      rate: otherwise the clock moves on although no symbol has passed. */
  lemma IdleClock<T>(rate: nat, baud: nat, buf: seq<T>, frac: real)
    requires rate >= baud > 0 && 0.0 <= frac < 1.0
    requires |buf| < Len(frac, PerSymbol(rate, baud))
    ensures CutWindows(buf, frac, PerSymbol(rate, baud)).frac == frac <==> Divides(rate, baud)
  {
    var per := PerSymbol(rate, baud);
    AtLeastOne(rate, baud);
    if Divides(rate, baud) {
      WholeQuotient(rate, baud);
      WholeLen(frac, rate / baud);
    }
    if Next(frac, per) == frac {
      assert per == Len(frac, per) as real;
      NoRemainder(rate, baud, Len(frac, per));
    }
  }

  lemma WholeQuotient(rate: nat, baud: nat)
    requires rate >= baud > 0 && Divides(rate, baud)
    ensures PerSymbol(rate, baud) == (rate / baud) as real
  {
    assert rate == rate / baud * baud;
    assert rate as real == (rate / baud) as real * baud as real;
  }

  lemma NoRemainder(rate: nat, baud: nat, n: nat)
    requires rate > 0 && baud > 0 && PerSymbol(rate, baud) == n as real
    ensures Divides(rate, baud)
  {
    assert PerSymbol(rate, baud) * baud as real == rate as real;
    assert n as real * baud as real == (n * baud) as real;
    assert rate == n * baud;
    MultipleDivides(n, baud);
  }

  lemma {:induction false} MultipleDivides(n: nat, baud: nat)
    requires baud > 0
    ensures (n * baud) % baud == 0
  {
    if n > 0 {
      MultipleDivides(n - 1, baud);
      assert n * baud == (n - 1) * baud + baud;
      AddOne((n - 1) * baud, baud);
    }
  }

  lemma AddOne(m: nat, d: nat)
    requires d > 0
    ensures (m + d) % d == m % d
  {
    var q := m / d;
    assert m + d == (q + 1) * d + m % d;
    RemainderIs(m + d, q + 1, m % d, d);
  }

  lemma RemainderIs(m: nat, q: nat, r: nat, d: nat)
    requires r < d && m == q * d + r
    ensures m % d == r
  {
    var k := m / d;
    assert m == k * d + m % d;
    if k < q { assert (k + 1) * d <= q * d by { Times(k + 1, q, d); } }
    if q < k { assert (q + 1) * d <= k * d by { Times(q + 1, k, d); } }
  }

  lemma Times(a: nat, b: nat, d: nat)
    requires a <= b
    ensures a * d <= b * d
  {
    assert b * d == a * d + (b - a) * d;
  }

  /** With whole symbols, a buffer can be handed over in two parts. */
  lemma {:induction false} CutTwice<T>(a: seq<T>, b: seq<T>, per: real)
    requires Next(0.0, per) == 0.0
    ensures var first := CutWindows(a, 0.0, per);
            var second := CutWindows(first.rest + b, 0.0, per);
            first.frac == 0.0 &&
            CutWindows(a + b, 0.0, per) == Windows(first.windows + second.windows, second.rest, 0.0)
    decreases |a|
  {
    var n := Len(0.0, per);
    if |a| < n {
      CutEndsEven(a + b, per);
      var second := CutWindows(a + b, 0.0, per);
      assert [] + second.windows == second.windows;
    } else {
      CutTwice(a[n..], b, per);
      assert (a + b)[..n] == a[..n] && (a + b)[n..] == a[n..] + b;
      var first := CutWindows(a[n..], 0.0, per);
      var second := CutWindows(first.rest + b, 0.0, per);
      assert [a[..n]] + (first.windows + second.windows) == [a[..n]] + first.windows + second.windows;
    }
  }

  lemma {:induction false} CutEndsEven<T>(a: seq<T>, per: real)
    requires Next(0.0, per) == 0.0
    ensures CutWindows(a, 0.0, per).frac == 0.0
    decreases |a|
  {
    var n := Len(0.0, per);
    if |a| >= n { CutEndsEven(a[n..], per); }
  }
}
