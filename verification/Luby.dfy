/** The Luby sequence of restart limits. */
module Restarts {
  import opened SearchState

  lemma {:induction false} PowGrows(k: nat)
    ensures k < Pow(2, k)
  {
    if k > 0 {
      PowGrows(k - 1);
    }
  }

  lemma {:induction false} PowMono(j: nat, k: nat)
    requires j <= k
    ensures 1 <= Pow(2, j) <= Pow(2, k)
  {
    if k > 0 {
      PowMono(if j == k then k - 1 else j, k - 1);
    }
  }

  /** The block of the sequence that place `x` belongs to: places 2^k - 1 up to 2^(k+1) - 2. */
  ghost function Block(x: nat, k: nat): (b: nat)
    requires Pow(2, k) - 1 <= x
    ensures Pow(2, b) - 1 <= x < Pow(2, b + 1) - 1
    decreases x + 1 - k
  {
    PowGrows(k);
    if x < Pow(2, k + 1) - 1 then k else Block(x, k + 1)
  }

  lemma OneBlock(x: nat, j: nat, k: nat)
    requires Pow(2, j) - 1 <= x < Pow(2, j + 1) - 1 && Pow(2, k) - 1 <= x < Pow(2, k + 1) - 1
    ensures j == k
  {
    if j < k { PowMono(j + 1, k); }
    if k < j { PowMono(k + 1, j); }
  }

  /** The exponent at place `x`: every block ends with its number and repeats all places before it otherwise. */
  ghost function Luby(x: nat): nat {
    var k := Block(x, 0);
    if x == Pow(2, k + 1) - 2 then k
    else
      PowGrows(k);
      Luby(x - (Pow(2, k) - 1))
  }

  /** Every exponent occurs. */
  lemma LubyPeak(k: nat)
    ensures Pow(2, k + 1) >= 2 && Luby(Pow(2, k + 1) - 2) == k
  {
    PowMono(0, k);
    var x := Pow(2, k + 1) - 2;
    OneBlock(x, k, Block(x, 0));
  }

  lemma Remainder(x: nat, s: nat)
    requires 0 < s && x < 2 * s
    ensures x % s == if x < s then x else x - s
  {
    if x >= s { assert x == s + (x - s); }
  }

  /** The rest of a block repeats the places before it. */
  lemma Halve(x: nat, size: nat, level: nat)
    requires size == Pow(2, level + 1) - 1 && x + 1 < size
    ensures level > 0 && (size - 1) / 2 == Pow(2, level) - 1 > 0
    ensures x % ((size - 1) / 2) < (size - 1) / 2 && Luby(x % ((size - 1) / 2)) == Luby(x)
  {
    PowMono(0, level);
    PowMono(1, level);
    Remainder(x, (size - 1) / 2);
    if x >= Pow(2, level) - 1 { OneBlock(x, level, Block(x, 0)); }
  }

  method LubyExponent(x0: nat) returns (level: nat)
    ensures level == Luby(x0)
  {
    hide Luby;
    var x: nat, size: nat := x0, 1;
    level := 0;
    while size < x + 1
      invariant size == Pow(2, level + 1) - 1
      decreases x + 1 - size
    {
      level := level + 1;
      size := 2 * size + 1;
    }
    while size - 1 != x
      invariant size == Pow(2, level + 1) - 1 && x <= size - 1 && Luby(x) == Luby(x0)
      decreases size
    {
      Halve(x, size, level);
      size := (size - 1) / 2;
      level := level - 1;
      x := x % size;
    }
    LubyPeak(level);
  }
}
