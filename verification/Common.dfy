/** Types shared by every layer: octets, octet strings, optional and fallible results,
    and the flattening of a list of strings. */
module Common {

  type byte = bv8
  type Bytes = seq<byte>

  function Bit(b: bool): byte { if b then 1 else 0 }

  /** The upper-case letter, on ASCII. */
  function UpperChar(c: char): char {
    if 'a' <= c <= 'z' then c - 'a' + 'A' else c
  }

  datatype Option<+T> = None | Some(value: T)

  datatype Result<+T> = Ok(value: T) | Err(error: string)

  /** The concatenation of all strings in `xs`, in order. */
  function Flat<T>(xs: seq<seq<T>>): seq<T> {
    if xs == [] then [] else xs[0] + Flat(xs[1..])
  }

  lemma {:induction false} FlatConcat<T>(xs: seq<seq<T>>, ys: seq<seq<T>>)
    ensures Flat(xs + ys) == Flat(xs) + Flat(ys)
  {
    if xs == [] {
      assert xs + ys == ys;
    } else {
      assert (xs + ys)[1..] == xs[1..] + ys;
      FlatConcat(xs[1..], ys);
    }
  }

  lemma Chain<T>(a: seq<T>, b: seq<T>, c: seq<T>)
    ensures a + (b + c) == a + b + c
  {}

  lemma FlatOne<T>(x: seq<T>)
    ensures Flat([x]) == x
  {
    assert Flat([x]) == x + Flat<T>([]);
  }

  lemma FlatSnoc<T>(xs: seq<seq<T>>, x: seq<T>)
    ensures Flat(xs + [x]) == Flat(xs) + x
  {
    FlatConcat(xs, [x]);
    FlatOne(x);
  }

  /** Flattening a prefix of a list gives a prefix of the flattened list. */
  lemma FlatPrefix<T>(xs: seq<seq<T>>, k: nat)
    requires k <= |xs|
    ensures Flat(xs[..k]) <= Flat(xs)
    ensures Flat(xs) == Flat(xs[..k]) + Flat(xs[k..])
  {
    assert xs == xs[..k] + xs[k..];
    FlatConcat(xs[..k], xs[k..]);
  }
}
