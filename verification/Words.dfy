// Two's-complement words of 64 and 32 bits.  A word is written as the signed integer it denotes.
module Words {
  const TWO_31: int := 0x8000_0000
  const TWO_32: int := 0x1_0000_0000
  const TWO_63: int := 0x8000_0000_0000_0000
  const TWO_64: int := 0x1_0000_0000_0000_0000

  type Word = x: int | -TWO_63 <= x < TWO_63

  predicate IsWord(x: int) {
    -TWO_63 <= x < TWO_63
  }

  // The word a 64-bit register holds after an operation whose exact result is x.
  function Wrap(x: int): (w: Word)
    ensures (x - w) % TWO_64 == 0
  {
    var m := x % TWO_64;
    if m < TWO_63 then m else m - TWO_64
  }

  // Wrap is the only word congruent to its argument.
  lemma WrapUnique(x: int, w: Word, k: int)
    requires x == w + k * TWO_64
    ensures Wrap(x) == w
  {
    var k' := (x - Wrap(x)) / TWO_64;
    assert x == Wrap(x) + k' * TWO_64;
    assert w - Wrap(x) == (k' - k) * TWO_64;
  }

  // Any two integers with the same residue wrap to the same word.
  lemma WrapCongruent(x: int, y: int, k: int)
    requires x == y + k * TWO_64
    ensures Wrap(x) == Wrap(y)
  {
    var q := (y - Wrap(y)) / TWO_64;
    assert y == Wrap(y) + q * TWO_64;
    assert x == Wrap(y) + (q + k) * TWO_64;
    WrapUnique(x, Wrap(y), q + k);
  }

  // What an int variable holds after x has been assigned to it.
  function Int32(x: int): (w: int)
    ensures -TWO_31 <= w < TWO_31
  {
    var m := x % TWO_32;
    if m < TWO_31 then m else m - TWO_32
  }

  lemma Int32Exactly(x: int)
    ensures Int32(x) == x <==> -TWO_31 <= x < TWO_31
  {
  }

  lemma Int32Idem(x: int)
    ensures Int32(Int32(x)) == Int32(x)
  {
    Int32Exactly(Int32(x));
  }

  // Truncating a term of a sum first makes no difference.
  lemma Int32Add(x: int, y: int)
    ensures Int32(Int32(x) + y) == Int32(x + y)
  {
  }
}
