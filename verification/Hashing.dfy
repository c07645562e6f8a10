// hashpjw, and the chained hash table.
module Hashing {

  // ---- hashpjw ----

  const TOP_NIBBLE: bv64 := 0xf000000000000000

  // Adding a char to the accumulator extends its sign.
  function SignExtend(b: bv8): bv64 {
    if b < 0x80 then b as bv64 else 0xffffffffffffff00 | (b as bv64)
  }

  // Fold the top nibble back into the middle of the word.
  function Fold(h: bv64): bv64 {
    var g := h & TOP_NIBBLE;
    if g != 0 then (h ^ (g >> 48)) ^ g else h
  }

  function Absorb(h: bv64, b: bv8): bv64 {
    (h << 4) + SignExtend(b)
  }

  function Pjw(s: seq<bv8>): bv64 {
    if s == [] then 0 else Fold(Absorb(Pjw(s[..|s| - 1]), s[|s| - 1]))
  }

  lemma FoldClears(h: bv64)
    ensures Fold(h) < 0x1000000000000000
  {
  }

  // A word without a top nibble is left alone; otherwise the top nibble moves twelve bits up from the bottom.
  lemma FoldMoves(h: bv64)
    requires h < 0x1000000000000000
    ensures Fold(h) == h
    ensures Fold(0x1000000000000000) == 0x1000 && Fold(0xf000000000000000) == 0xf000
  {
  }

  // A char from 0x80 on counts as negative.
  lemma CharsAreSigned(b: bv8)
    ensures SignExtend(b) == if b < 0x80 then b as bv64 else (b as bv64) - 0x100
  {
  }

  method Mix(x: bv64) returns (h: bv64)
    ensures h == Fold(x)
  {
    h := x;
    var g := h & TOP_NIBBLE;
    if g != 0 {
      h := h ^ (g >> 48);
      h := h ^ g;
    }
  }

  // The hash fits in 60 bits, so it survives being passed through a signed 64-bit integer.
  method HashPjw(s: seq<bv8>) returns (h: bv64)
    ensures h == Pjw(s) && h < 0x1000000000000000
  {
    h := 0;
    for i := 0 to |s|
      invariant h == Pjw(s[..i])
    {
      assert s[..i + 1][..i] == s[..i];
      h := Mix(Absorb(h, s[i]));
    }
    assert s[..|s|] == s;
    PjwBound(s);
  }

  lemma PjwBound(s: seq<bv8>)
    ensures Pjw(s) < 0x1000000000000000
  {
    if s != [] { FoldClears(Absorb(Pjw(s[..|s| - 1]), s[|s| - 1])); }
  }

  function Twice(x: bv64): bv64 {
    x + x
  }

  // Two ASCII characters are read as a number to the base 16.
  lemma ShortStrings(a: bv8, b: bv8)
    requires a < 0x80 && b < 0x80
    ensures Pjw([a]) == a as bv64
    ensures Pjw([a, b]) == Twice(Twice(Twice(Twice(a as bv64)))) + (b as bv64)
  {
    hide Fold, Absorb;
    assert [a][..0] == [] && [a, b][..1] == [a];
    AbsorbAscii(0, a);
    AbsorbAscii(a as bv64, b);
  }

  lemma AbsorbAscii(h: bv64, b: bv8)
    requires h < 0x80 && b < 0x80
    ensures Fold(Absorb(h, b)) == Twice(Twice(Twice(Twice(h)))) + (b as bv64)
  {
  }

  function Bytes(s: string): seq<bv8> {
    seq(|s|, i requires 0 <= i < |s| => (s[i] as int % 256) as bv8)
  }

  function HashString(s: string): nat {
    Pjw(Bytes(s)) as nat
  }
}
