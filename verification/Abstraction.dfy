/** The 32-bit signature of a clause that filters subsumption tests. */
module Abstractions {
  import opened Frames

  function Bit(v: nat): bv32 {
    (1 as bv32) << (v % 32)
  }

  function Signature(c: Clause): bv32 {
    if c == [] then 0 else Signature(c[..|c| - 1]) | Bit(c[|c| - 1].latch)
  }

  method CalcAbstraction(ls: Clause) returns (abstraction: bv32)
    ensures abstraction == Signature(ls)
  {
    abstraction := 0;
    for i := 0 to |ls|
      invariant abstraction == Signature(ls[..i])
    {
      abstraction := abstraction | Bit(ls[i].latch);
      assert ls[..i + 1][..i] == ls[..i];
    }
    assert ls[..|ls|] == ls;
  }

  /** The test of the engine: no bit of `a` is missing from `b`. */
  predicate Covered(a: bv32, b: bv32) { a & !b == 0 }

  lemma CoveredJoin(a: bv32, b: bv32, x: bv32)
    requires Covered(a, x) && Covered(b, x)
    ensures Covered(a | b, x)
  {
  }

  lemma CoveredMore(a: bv32, x: bv32, y: bv32)
    ensures Covered(a, x) ==> Covered(a, x | y)
    ensures Covered(a, x | a)
  {
  }

  lemma {:induction false} LiteralCovered(d: Clause, l: LLit)
    requires l in d
    ensures Covered(Bit(l.latch), Signature(d))
  {
    var n := |d| - 1;
    CoveredMore(Bit(l.latch), Signature(d[..n]), Bit(d[n].latch));
    if l != d[n] { LiteralCovered(d[..n], l); }
  }

  /** The filter never rejects a real subsumption. */
  lemma {:induction false} SubsetCovered(c: Clause, d: Clause)
    requires Subset(c, d)
    ensures Covered(Signature(c), Signature(d))
  {
    if c != [] {
      var n := |c| - 1;
      SubsetCovered(c[..n], d);
      LiteralCovered(d, c[n]);
      CoveredJoin(Signature(c[..n]), Bit(c[n].latch), Signature(d));
    }
  }
}
