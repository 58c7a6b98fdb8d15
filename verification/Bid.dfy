/** Allocation of bulletin identifiers: call sign and time, with a two-digit suffix counted up until
    the identifier is not in the store. */
module Bid {
  import opened Common

  // ---- the candidates ---------------------------------------------------------------------------------

  function Upper(s: string): string {
    seq(|s|, i requires 0 <= i < |s| => UpperChar(s[i]))
  }

  /** The part before the first hyphen. */
  function BeforeHyphen(s: string): string {
    if s == [] || s[0] == '-' then [] else [s[0]] + BeforeHyphen(s[1..])
  }

  /** Call sign and time stamp. */
  function Base(call: string, time: string): string { BeforeHyphen(Upper(call)) + time }

  function Digit(n: nat): char
    requires n < 10
  {
    "0123456789"[n]
  }

  function Decimal(n: nat): (s: string)
    ensures |s| >= if n < 10 then 1 else 2
  {
    if n < 10 then [Digit(n)] else Decimal(n / 10) + [Digit(n % 10)]
  }

  /** At least two digits. */
  function TwoDigits(n: nat): (s: string)
    ensures |s| >= 2
  {
    if n < 10 then "0" + Decimal(n) else Decimal(n)
  }

  /** The identifier tried with a suffix: none at first. */
  function Candidate(base: string, suffix: nat): (bid: string)
    requires |base| >= 12
    ensures |bid| == 12 && base[..10] == bid[..10]
  {
    if suffix == 0 then base[..12] else (base[..10] + TwoDigits(suffix))[..12]
  }

  // ---- which suffixes matter ----------------------------------------------------------------------------

  /** The first two digits, as a number. */
  function Leading(n: nat): (r: nat)
    ensures r < 100 && (n >= 10 ==> r >= 10)
  {
    if n < 100 then n else Leading(n / 10)
  }

  lemma {:induction false} LeadingDigits(n: nat)
    requires n >= 10
    ensures Decimal(n)[..2] == Decimal(Leading(n)) && |Decimal(Leading(n))| == 2
    decreases n
  {
    if n < 100 {
      assert Decimal(n) == Decimal(n / 10) + [Digit(n % 10)];
    } else {
      LeadingDigits(n / 10);
      assert Decimal(n)[..2] == Decimal(n / 10)[..2];
    }
  }

  /** From 100 on, the suffix is cut to its first two digits and only repeats what was tried before. */
  lemma LateSuffixRepeats(base: string, suffix: nat)
    requires |base| >= 12 && suffix > 0
    ensures 1 <= Leading(suffix) <= 99 && Candidate(base, suffix) == Candidate(base, Leading(suffix))
  {
    if suffix >= 10 {
      LeadingDigits(suffix);
      var lead := Leading(suffix);
      assert (base[..10] + TwoDigits(suffix))[..12] == base[..10] + TwoDigits(suffix)[..2];
      assert (base[..10] + TwoDigits(lead))[..12] == base[..10] + TwoDigits(lead);
    }
  }

  ghost predicate Free(bids: set<string>, base: string, suffix: nat)
    requires |base| >= 12
  {
    Candidate(base, suffix) !in bids
  }

  /** Every suffix below `n` is in the store. */
  ghost predicate AllTaken(bids: set<string>, base: string, n: nat)
    requires |base| >= 12
  {
    forall k: nat :: k < n ==> !Free(bids, base, k)
  }

  /** The search ends exactly if one of a hundred identifiers is not in the store. */
  lemma SearchEnds(bids: set<string>, base: string)
    requires |base| >= 12
    ensures (exists suffix: nat :: Free(bids, base, suffix)) <==>
            (exists suffix: nat :: suffix <= 99 && Free(bids, base, suffix))
  {
    if suffix: nat :| Free(bids, base, suffix) {
      if suffix > 0 {
        LateSuffixRepeats(base, suffix);
        assert Free(bids, base, Leading(suffix));
      }
    }
  }

  // ---- what an identifier says --------------------------------------------------------------------------

  /** `s` is the call sign of `call`: all of it, or what is before its first hyphen. */
  predicate Station(call: string, s: string) {
    '-' !in s && (call == s || (|call| > |s| && call[..|s|] == s && call[|s|] == '-'))
  }

  /** Letter by letter; 32 is the distance between small and capital letters. */
  predicate Capitals(s: string, t: string) {
    |s| == |t| && forall i :: 0 <= i < |s| ==> t[i] as int == if 97 <= s[i] as int <= 122 then s[i] as int - 32 else s[i] as int
  }

  predicate IsNumeral(t: string, n: nat) {
    |t| == 2 && n < 100 && t[0] as int == 48 + n / 10 && t[1] as int == 48 + n % 10
  }

  lemma {:induction false} BeforeHyphenIs(s: string, call: string)
    requires Station(call, s)
    ensures BeforeHyphen(call) == s
    decreases |s|
  {
    if s != [] {
      assert Station(call[1..], s[1..]);
      BeforeHyphenIs(s[1..], call[1..]);
      assert s == [s[0]] + s[1..];
    }
  }

  lemma BaseIs(call: string, time: string, s: string)
    requires Station(call, s)
    ensures Base(call, time) == Upper(s) + time && Capitals(s, Upper(s))
  {
    assert Upper(call)[..|s|] == Upper(s);
    assert Station(Upper(call), Upper(s));
    BeforeHyphenIs(Upper(s), Upper(call));
  }

  /** The identifier for call sign `s`, time stamp and suffix: ten characters of call sign and time, and then
      the next two, or the suffix in two digits. */
  ghost predicate Says(bid: string, s: string, time: string, suffix: nat) {
    exists t: string :: Capitals(s, t) && |t + time| >= 12 && |bid| == 12 && bid[..10] == (t + time)[..10] &&
      if suffix == 0 then bid[10..] == (t + time)[10..12] else IsNumeral(bid[10..], suffix)
  }

  lemma CandidateSays(call: string, time: string, s: string, suffix: nat)
    requires Station(call, s) && |time| == 12 && suffix < 100
    ensures |Base(call, time)| >= 12 && Says(Candidate(Base(call, time), suffix), s, time, suffix)
  {
    BaseIs(call, time, s);
    var base := Upper(s) + time;
    if suffix == 0 {
      assert base[..12][..10] == base[..10] && base[..12][10..] == base[10..12];
    } else {
      Two(suffix);
      TwoDigitsOf(suffix);
      assert (base[..10] + TwoDigits(suffix))[..12] == base[..10] + TwoDigits(suffix);
    }
    assert Capitals(s, Upper(s));
  }

  lemma TwoDigitsOf(n: nat)
    requires n < 100
    ensures IsNumeral([Digit(n / 10), Digit(n % 10)], n)
  {
    DigitCode(n / 10);
    DigitCode(n % 10);
  }

  lemma DigitCode(n: nat)
    requires n < 10
    ensures Digit(n) as int == 48 + n
  {}

  /** Every call has one call sign. */
  lemma {:induction false} StationOf(call: string) returns (s: string)
    ensures Station(call, s)
    decreases |call|
  {
    if call == [] || call[0] == '-' {
      s := [];
    } else {
      var t := StationOf(call[1..]);
      s := [call[0]] + t;
      if call[1..] != t { assert call[..|s|] == [call[0]] + call[1..][..|t|]; }
    }
  }

  /** Neither letter case nor SSID matters: calls of one station are tried with the same identifiers. */
  lemma SameStation(call: string, call2: string, s: string, s2: string, time: string)
    requires Station(call, s) && Station(call2, s2) && Capitals(s, Upper(s2))
    ensures Base(call, time) == Base(call2, time)
  {
    BaseIs(call, time, s);
    BaseIs(call2, time, s2);
    assert Upper(s) == Upper(s2);
  }

  // ---- pigeonhole ---------------------------------------------------------------------------------------

  /** The stored identifiers that begin alike. */
  function Sharing(bids: set<string>, prefix: string): set<string> {
    set b | b in bids && prefix <= b
  }

  /** Those with the suffixes 01 to n. */
  function Tried(base: string, n: nat): set<string>
    requires |base| >= 12
  {
    if n == 0 then {} else Tried(base, n - 1) + {Candidate(base, n)}
  }

  lemma DigitsDiffer(m: nat, n: nat)
    requires m < n < 100
    ensures TwoDigits(m) != TwoDigits(n) && |TwoDigits(m)| == |TwoDigits(n)| == 2
  {
    Two(m);
    Two(n);
    TensOrOnes(m, n);
    DigitsDistinct(m / 10, n / 10);
    DigitsDistinct(m % 10, n % 10);
  }

  lemma TensOrOnes(m: nat, n: nat)
    requires m != n
    ensures m / 10 != n / 10 || m % 10 != n % 10
  {}

  lemma DigitsDistinct(m: nat, n: nat)
    requires m < 10 && n < 10
    ensures Digit(m) == Digit(n) <==> m == n
  {}

  lemma Two(n: nat)
    requires n < 100
    ensures TwoDigits(n) == [Digit(n / 10), Digit(n % 10)]
  {
    if n >= 10 {
      assert Decimal(n / 10) == [Digit(n / 10)];
    } else {
      assert Decimal(n) == [Digit(n)] && "0" == [Digit(0)];
    }
  }

  lemma SuffixesDiffer(base: string, m: nat, n: nat)
    requires |base| >= 12 && 0 < m < n < 100
    ensures Candidate(base, m) != Candidate(base, n)
  {
    DigitsDiffer(m, n);
    var x, y := base[..10] + TwoDigits(m), base[..10] + TwoDigits(n);
    assert x[..12] == x && y[..12] == y;
    assert x[10..] == TwoDigits(m) && y[10..] == TwoDigits(n);
  }

  lemma {:induction false} TriedMembers(base: string, n: nat, b: string)
    requires |base| >= 12 && b in Tried(base, n)
    ensures exists m :: 0 < m <= n && b == Candidate(base, m)
  {
    if b != Candidate(base, n) { TriedMembers(base, n - 1, b); }
  }

  lemma {:induction false} TriedCount(base: string, n: nat)
    requires |base| >= 12 && n < 100
    ensures |Tried(base, n)| == n
  {
    if n > 0 {
      TriedCount(base, n - 1);
      if Candidate(base, n) in Tried(base, n - 1) {
        TriedMembers(base, n - 1, Candidate(base, n));
        var m :| 0 < m <= n - 1 && Candidate(base, n) == Candidate(base, m);
        SuffixesDiffer(base, m, n);
      }
    }
  }

  lemma {:induction false} TriedStored(bids: set<string>, base: string, n: nat)
    requires |base| >= 12 && forall k :: 0 < k <= n ==> !Free(bids, base, k)
    ensures Tried(base, n) <= Sharing(bids, base[..10])
  {
    if n > 0 {
      TriedStored(bids, base, n - 1);
      assert !Free(bids, base, n);
      var bid := Candidate(base, n);
      assert bid[..10] <= bid;
    }
  }

  lemma SmallerSet(a: set<string>, b: set<string>)
    requires a <= b
    ensures |a| <= |b|
  {
    assert b == a + (b - a);
  }

  /** If fewer than 99 stored identifiers begin with the same ten characters, a suffix below 100 is free. */
  lemma Pigeonhole(bids: set<string>, base: string)
    requires |base| >= 12 && |Sharing(bids, base[..10])| < 99
    ensures exists suffix: nat :: suffix <= 99 && Free(bids, base, suffix)
  {
    if forall k: nat :: 0 < k <= 99 ==> !Free(bids, base, k) {
      TriedStored(bids, base, 99);
      TriedCount(base, 99);
      SmallerSet(Tried(base, 99), Sharing(bids, base[..10]));
    }
  }

  // ---- the store ----------------------------------------------------------------------------------------

  class Store {
    /** The identifiers of the stored messages. */
    var bids: set<string>

    constructor (bids: set<string>)
      ensures this.bids == bids
    {
      this.bids := bids;
    }

    method HasBid(bid: string) returns (found: bool)
      ensures found == (bid in bids)
    {
      found := bid in bids;
    }

    /** `time` is the current time as twelve digits. The search must be able to end (`SearchEnds`);
        the first free suffix is taken. */
    method GenerateBid(call: string, time: string) returns (bid: string)
      requires |time| == 12
      requires exists suffix: nat :: Free(bids, Base(call, time), suffix)
      ensures |bid| == 12 && bid !in bids
      ensures exists suffix: nat :: suffix <= 99 && bid == Candidate(Base(call, time), suffix) &&
                AllTaken(bids, Base(call, time), suffix) &&
                forall s :: Station(call, s) ==> Says(bid, s, time, suffix)
    {
      var base := Base(call, time);
      SearchEnds(bids, base);
      ghost var last: nat :| last <= 99 && Free(bids, base, last);
      var suffix: nat := 0;
      bid := base[..12];
      var found := HasBid(bid);
      while found
        invariant bid == Candidate(base, suffix) && found == !Free(bids, base, suffix)
        invariant AllTaken(bids, base, suffix)
        invariant suffix <= last
        decreases last - suffix, found
      {
        suffix := suffix + 1;
        bid, found := Try(base, suffix);
      }
      forall s | Station(call, s) ensures Says(bid, s, time, suffix) { CandidateSays(call, time, s, suffix); }
    }

    /** One more suffix. */
    method Try(base: string, suffix: nat) returns (bid: string, found: bool)
      requires |base| >= 12 && suffix > 0
      ensures bid == Candidate(base, suffix) && found == !Free(bids, base, suffix)
    {
      bid := (base[..10] + TwoDigits(suffix))[..12];
      found := HasBid(bid);
    }
  }
}
