/** Numbers and their binary digits: exclusive or, words of bits, octets. */
module Numbers {
  import opened Common
  import opened Bits

  /** Exclusive or of two numbers, bit by bit. */
  function XorNat(a: nat, b: nat): nat
    decreases a + b
  {
    if a + b == 0 then 0 else (if a % 2 != b % 2 then 1 else 0) + 2 * XorNat(a / 2, b / 2)
  }

  /** The `n` low bits of a number, lowest first. */
  function Word(c: nat, n: nat): (r: seq<bool>)
    ensures |r| == n
    decreases n, c
  {
    if n == 0 then [] else [c % 2 == 1] + Word(c / 2, n - 1)
  }

  function Pow2(n: nat): (r: nat)
    ensures r > 0
  {
    if n == 0 then 1 else 2 * Pow2(n - 1)
  }

  lemma {:induction false} WordXor(a: nat, b: nat, n: nat)
    ensures forall i :: 0 <= i < n ==> Word(XorNat(a, b), n)[i] == (Word(a, n)[i] != Word(b, n)[i])
    decreases n
  {
    if n > 0 {
      WordXor(a / 2, b / 2, n - 1);
      assert XorNat(a, b) / 2 == XorNat(a / 2, b / 2);
      assert (XorNat(a, b) % 2 == 1) == (a % 2 != b % 2);
    }
  }

  lemma {:induction false} XorBelow(a: nat, b: nat, n: nat)
    requires a < Pow2(n) && b < Pow2(n)
    ensures XorNat(a, b) < Pow2(n)
    decreases n
  {
    if n > 0 { XorBelow(a / 2, b / 2, n - 1); }
  }

  lemma {:induction false} WordShift(c: nat, n: nat)
    requires c < Pow2(n) && n > 0
    ensures Word(c / 2, n) == Word(c, n)[1..] + [false]
    decreases n
  {
    if n == 1 {
      assert Word(0, 1) == [false] + Word(0, 0);
    } else {
      WordShift(c / 2, n - 1);
      assert Word(c, n)[1..] == Word(c / 2, n - 1);
    }
  }

  lemma {:induction false} WordInjective(a: nat, b: nat, n: nat)
    requires a < Pow2(n) && b < Pow2(n) && Word(a, n) == Word(b, n)
    ensures a == b
    decreases n
  {
    if n > 0 {
      assert Word(a, n)[0] == Word(b, n)[0];
      assert Word(a, n)[1..] == Word(b, n)[1..];
      WordInjective(a / 2, b / 2, n - 1);
    }
  }

  lemma Half(b: byte)
    ensures (b >> 1) as nat == b as nat / 2
    ensures (b & 1 != 0) == (b as nat % 2 == 1)
  {}

  lemma {:induction false} WordOctet(b: byte, n: nat)
    ensures Word(b as nat, n) == ToBits(b, n)
    decreases n
  {
    if n > 0 {
      Half(b);
      WordOctet(b >> 1, n - 1);
    }
  }

  lemma {:induction false} WordJoin(lo: nat, hi: nat, k: nat, n: nat)
    requires lo < Pow2(k)
    ensures Word(lo + Pow2(k) * hi, k + n) == Word(lo, k) + Word(hi, n)
    decreases k
  {
    if k > 0 {
      var p := Pow2(k - 1) * hi;
      TwiceAsMuch(Pow2(k), Pow2(k - 1), hi);
      HalfOfSum(lo, p);
      WordJoin(lo / 2, hi, k - 1, n);
    }
  }

  lemma TwiceAsMuch(a: nat, b: nat, c: nat)
    requires a == 2 * b
    ensures a * c == 2 * (b * c)
  {}

  lemma HalfOfSum(lo: nat, p: nat)
    ensures (lo + 2 * p) / 2 == lo / 2 + p && (lo + 2 * p) % 2 == lo % 2
  {}

  /** A number below 2^k has only zeros behind its k digits. */
  lemma {:induction false} WordPad(c: nat, k: nat, n: nat)
    requires c < Pow2(k)
    ensures Word(c, k + n) == Word(c, k) + Zeros(n)
    decreases k
  {
    if k == 0 {
      WordZero(n);
    } else {
      WordPad(c / 2, k - 1, n);
    }
  }

  lemma TwoHalves(lo: nat, hi: nat)
    requires lo < 256
    ensures Word(lo + 256 * hi, 16) == Word(lo, 8) + Word(hi, 8)
  {
    PowerValues();
    WordJoin(lo, hi, 8, 8);
  }

  lemma WordOfOctets(lo: byte, hi: byte)
    ensures Word(lo as nat + 256 * hi as nat, 16) == ToBits(lo, 8) + ToBits(hi, 8)
    ensures lo as nat + 256 * hi as nat < Pow2(16)
  {
    PowerValues();
    TwoHalves(lo as nat, hi as nat);
    WordOctet(lo, 8);
    WordOctet(hi, 8);
  }

  lemma PowerValues()
    ensures Pow2(8) == 256 && Pow2(16) == 0x10000
  {
    assert Pow2(8) == 256;
    assert Pow2(12) == 16 * Pow2(8);
    assert Pow2(16) == 16 * Pow2(12);
  }

  lemma {:induction false} WordZero(n: nat)
    ensures Word(0, n) == Zeros(n)
    decreases n
  {
    if n > 0 {
      WordZero(n - 1);
      assert Zeros(n) == [false] + Zeros(n - 1);
    }
  }

  lemma Nibble(lo: nat, hi: nat, n: nat)
    requires lo < 16
    ensures Word(lo + 16 * hi, 4 + n) == Word(lo, 4) + Word(hi, n)
  {
    assert Pow2(4) == 16;
    WordJoin(lo, hi, 4, n);
  }

  lemma SameWord(a: nat, b: nat)
    requires a < Pow2(16) && b < Pow2(16)
    ensures a == b <==> Word(a, 16) == Word(b, 16)
  {
    if Word(a, 16) == Word(b, 16) { WordInjective(a, b, 16); }
  }

  /** The octet of value `n`. */
  function Octet(n: nat): byte { Pack(Word(n, 8)) }

  /** The number with the given binary digits, lowest first. */
  function Number(bits: seq<bool>): nat {
    if bits == [] then 0 else (if bits[0] then 1 else 0) + 2 * Number(bits[1..])
  }

  /** The value of an octet. */
  function Value(b: byte): nat { Number(ToBits(b, 8)) }

  lemma ValueAsNat(b: byte)
    ensures Value(b) == b as nat
  {
    PowerValues();
    WordOctet(b, 8);
    NumberOfWord(b as nat, 8);
  }

  lemma {:induction false} WordHigh(n: nat, k: nat)
    requires n < Pow2(k)
    ensures !Word(n, k + 1)[k]
    decreases k
  {
    if k > 0 { WordHigh(n / 2, k - 1); }
  }

  lemma TopBit(b: byte)
    requires (b >> 7) & 1 == 0
    ensures b < 128
  {}

  lemma SmallOctet(n: nat)
    requires n < 128
    ensures Octet(n) < 128
  {
    assert Pow2(7) == 128;
    UnpackPack(Word(n, 8));
    WordHigh(n, 7);
    ToBitsAt(Octet(n), 8, 7);
    TopBit(Octet(n));
  }

  lemma {:induction false} NumberOfWord(n: nat, k: nat)
    requires n < Pow2(k)
    ensures Number(Word(n, k)) == n
    decreases k
  {
    if k > 0 {
      NumberOfWord(n / 2, k - 1);
      assert Word(n, k)[1..] == Word(n / 2, k - 1);
    }
  }

  lemma ValueOfOctet(n: nat)
    requires n < 256
    ensures Value(Octet(n)) == n
  {
    PowerValues();
    UnpackPack(Word(n, 8));
    NumberOfWord(n, 8);
  }
}
