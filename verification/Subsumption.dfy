/** Backward subsumption: one clause contains another, or does so but for the sign of one literal. */
module Subsumption {
  import opened Literals
  import A = Abstractions

  /** The 32-bit signature of a clause. */
  function Abs(c: Clause): bv32 {
    if c == [] then 0 else Abs(c[..|c| - 1]) | A.Bit(c[|c| - 1].v)
  }

  method CalcAbstraction(c: Clause) returns (abstraction: bv32)
    ensures abstraction == Abs(c)
  {
    abstraction := 0;
    for i := 0 to |c|
      invariant abstraction == Abs(c[..i])
    {
      abstraction := abstraction | A.Bit(c[i].v);
      assert c[..i + 1][..i] == c[..i];
    }
    assert c[..|c|] == c;
  }

  lemma {:induction false} VariableCovered(d: Clause, k: nat)
    requires k < |d|
    ensures A.Covered(A.Bit(d[k].v), Abs(d))
  {
    var n := |d| - 1;
    A.CoveredMore(A.Bit(d[k].v), Abs(d[..n]), A.Bit(d[n].v));
    if k < n { VariableCovered(d[..n], k); }
  }

  ghost predicate HasVar(d: Clause, v: nat) { exists j :: 0 <= j < |d| && d[j].v == v }

  ghost predicate VarsWithin(c: Clause, d: Clause) { forall k :: 0 <= k < |c| ==> HasVar(d, c[k].v) }

  /** The filter lets every pair through whose variables are contained. */
  lemma {:induction false} VariablesCovered(c: Clause, d: Clause)
    requires VarsWithin(c, d)
    ensures A.Covered(Abs(c), Abs(d))
  {
    if c != [] {
      var n := |c| - 1;
      VariablesCovered(c[..n], d);
      assert HasVar(d, c[n].v);
      var j :| 0 <= j < |d| && d[j].v == c[n].v;
      VariableCovered(d, j);
      A.CoveredJoin(Abs(c[..n]), A.Bit(c[n].v), Abs(d));
    } else {
      EmptyCovered(Abs(d));
    }
  }

  lemma EmptyCovered(x: bv32)
    ensures A.Covered(0, x)
  {
  }

  datatype Verdict = Neither | Subsumed | Strengthen(l: Lit)

  /** All literals of `c` but possibly `l` are in `d`, and the negation of `l` is. */
  ghost predicate AllBut(c: Clause, d: Clause, l: Lit) {
    l in c && Neg(l) in d && forall k :: k in c && k != l ==> k in d
  }

  ghost predicate Within(c: Clause, d: Clause) { forall k :: k in c ==> k in d }

  lemma {:induction false} WithinSize(n: nat, c: Clause, d: Clause)
    requires ClauseOk(n, c) && ClauseOk(n, d) && VarsWithin(c, d)
    ensures |c| <= |d|
  {
    if c != [] {
      var m := |c| - 1;
      assert HasVar(d, c[m].v);
      var j :| 0 <= j < |d| && d[j].v == c[m].v;
      var e := d[..j] + d[j + 1..];
      assert forall i :: 0 <= i < |e| ==> e[i] == d[if i < j then i else i + 1];
      forall k | 0 <= k < m ensures HasVar(e, c[k].v) {
        assert HasVar(d, c[k].v);
        var i :| 0 <= i < |d| && d[i].v == c[k].v;
        assert e[if i < j then i else i - 1].v == c[k].v;
      }
      WithinSize(n, c[..m], e);
    }
  }

  lemma VariablesWithin(n: nat, c: Clause, d: Clause)
    requires ClauseOk(n, c) && ClauseOk(n, d) && (Within(c, d) || exists l :: AllBut(c, d, l))
    ensures |c| <= |d| && A.Covered(Abs(c), Abs(d))
  {
    forall k | 0 <= k < |c| ensures HasVar(d, c[k].v) {
      assert c[k] in c;
      var l := if c[k] in d then c[k] else Neg(c[k]);
      assert l in d;
      var j :| 0 <= j < |d| && d[j] == l;
    }
    WithinSize(n, c, d);
    VariablesCovered(c, d);
  }

  /** The verdict on the literals seen so far. */
  ghost predicate SoFar(c: Clause, d: Clause, r: Verdict) {
    match r
    case Neither => false
    case Subsumed => Within(c, d)
    case Strengthen(l) => AllBut(c, d, l)
  }

  /** Looks `x` up in `d`; once, its negation will do as well. */
  method Match(x: Lit, d: Clause, r: Verdict, ghost n: nat) returns (found: bool, s: Verdict)
    requires ClauseOk(n, d)
    ensures found ==> if x in d then s == r else r == Subsumed && Neg(x) in d && s == Strengthen(x)
    ensures !found ==> x !in d && !(r == Subsumed && Neg(x) in d)
  {
    for j := 0 to |d|
      invariant x !in d[..j] && !(r == Subsumed && Neg(x) in d[..j])
    {
      assert d[..j + 1] == d[..j] + [d[j]] && d[j] in d;
      if x == d[j] {
        return true, r;
      } else if r == Subsumed && x == Neg(d[j]) {
        assert Neg(x) == d[j];
        NotBoth(n, d, j, x);
        return true, Strengthen(x);
      }
    }
    assert d[..|d|] == d;
    return false, r;
  }

  lemma NotBoth(n: nat, d: Clause, j: nat, x: Lit)
    requires ClauseOk(n, d) && j < |d| && d[j] == Neg(x)
    ensures x !in d
  {
  }

  /** Whether `c` subsumes `d`, or can strengthen it by one literal; sizes and signatures are compared first. */
  method Subsumes(c: Clause, absC: bv32, d: Clause, absD: bv32, ghost n: nat) returns (r: Verdict)
    requires ClauseOk(n, c) && ClauseOk(n, d) && absC == Abs(c) && absD == Abs(d)
    ensures r == Subsumed <==> Within(c, d)
    ensures forall l :: r == Strengthen(l) <==> AllBut(c, d, l)
  {
    hide ClauseOk, Within, AllBut, Abs;
    Exclusive(n, c, d);
    if |d| < |c| || absC & !absD != 0 {
      Filtered(n, c, d);
      return Neither;
    }
    r := Subsumed;
    Nothing(d);
    for i := 0 to |c|
      invariant SoFar(c[..i], d, r)
    {
      var found, s := Match(c[i], d, r, n);
      if !found {
        NotFound(n, c, d, i, r);
        return Neither;
      }
      OneMore(c, d, i, r, s);
      r := s;
    }
    assert c[..|c|] == c;
  }

  lemma Nothing(d: Clause)
    ensures Within([], d)
  {
  }

  lemma Filtered(n: nat, c: Clause, d: Clause)
    requires ClauseOk(n, c) && ClauseOk(n, d) && (|d| < |c| || !A.Covered(Abs(c), Abs(d)))
    ensures !Within(c, d) && forall l :: !AllBut(c, d, l)
  {
    hide Within, AllBut, ClauseOk, Abs;
    forall l ensures !AllBut(c, d, l) {
      if AllBut(c, d, l) { VariablesWithin(n, c, d); }
    }
    if Within(c, d) { VariablesWithin(n, c, d); }
  }

  lemma OneMore(c: Clause, d: Clause, i: nat, r: Verdict, s: Verdict)
    requires i < |c| && SoFar(c[..i], d, r)
    requires if c[i] in d then s == r else r == Subsumed && Neg(c[i]) in d && s == Strengthen(c[i])
    ensures SoFar(c[..i + 1], d, s)
  {
    assert c[..i + 1] == c[..i] + [c[i]];
  }

  lemma NotFound(n: nat, c: Clause, d: Clause, i: nat, r: Verdict)
    requires ClauseOk(n, c) && ClauseOk(n, d) && i < |c| && SoFar(c[..i], d, r)
    requires c[i] !in d && !(r == Subsumed && Neg(c[i]) in d)
    ensures !Within(c, d) && forall l :: !AllBut(c, d, l)
  {
    assert c[i] in c;
    if r.Strengthen? {
      var k :| 0 <= k < i && c[k] == r.l;
      var h :| 0 <= h < |d| && d[h] == Neg(r.l);
      assert r.l in c && r.l !in d && r.l != c[i];
    }
  }

  /** The two verdicts exclude each other, and there is at most one literal to strengthen by. */
  lemma Exclusive(n: nat, c: Clause, d: Clause)
    requires ClauseOk(n, c) && ClauseOk(n, d)
    ensures forall l :: AllBut(c, d, l) ==> !Within(c, d) && forall k :: AllBut(c, d, k) ==> k == l
  {
    forall l | AllBut(c, d, l) ensures l !in d {
      var j :| 0 <= j < |d| && d[j] == Neg(l);
    }
  }

  // ---------- what the verdicts mean ----------

  lemma SubsumedSound(m: Model, c: Clause, d: Clause)
    requires Within(c, d) && SatClause(m, c)
    ensures SatClause(m, d)
  {
  }

  /** Literal `l` taken out of a clause. */
  function Without(d: Clause, l: Lit): Clause {
    if d == [] then []
    else Without(d[..|d| - 1], l) + (if d[|d| - 1] != l then [d[|d| - 1]] else [])
  }

  lemma {:induction false} WithoutMember(d: Clause, l: Lit, k: Lit)
    ensures k in Without(d, l) <==> k in d && k != l
  {
    if d != [] { WithoutMember(d[..|d| - 1], l, k); }
  }

  lemma {:induction false} WithoutOk(n: nat, d: Clause, l: Lit)
    requires ClauseOk(n, d)
    ensures ClauseOk(n, Without(d, l)) && |Without(d, l)| == |d| - (if l in d then 1 else 0)
  {
    if d != [] {
      var k := |d| - 1;
      WithoutOk(n, d[..k], l);
      var w := Without(d[..k], l);
      forall j | 0 <= j < |w| ensures w[j].v != d[k].v { WithoutMember(d[..k], l, w[j]); }
      assert d == d[..k] + [d[k]];
      assert forall x :: x in d <==> x in d[..k] || x == d[k];
    }
  }

  /** Subsumption resolution: the strengthened clause means the same beside the clause that strengthens it. */
  lemma StrengthenSound(m: Model, n: nat, c: Clause, d: Clause, l: Lit)
    requires ClauseOk(n, c) && AllBut(c, d, l) && SatClause(m, c)
    ensures SatClause(m, d) <==> SatClause(m, Without(d, Neg(l)))
  {
    forall k ensures k in Without(d, Neg(l)) <==> k in d && k != Neg(l) { WithoutMember(d, Neg(l), k); }
    var k :| k in c && Makes(m, k);
    assert Neg(l) !in c by {
      var j :| 0 <= j < |c| && c[j] == l;
    }
    assert k != l ==> k in Without(d, Neg(l));
  }

  /** Removing a literal in place, keeping the order. */
  method RemoveLit(d: Clause, l: Lit, ghost n: nat) returns (r: Clause)
    requires ClauseOk(n, d) && l in d
    ensures r == Without(d, l)
  {
    var j := 0;
    while d[j] != l
      invariant 0 <= j < |d| && l in d[j..]
      decreases |d| - j
    {
      assert d[j..] == [d[j]] + d[j + 1..];
      j := j + 1;
    }
    r := d;
    ghost var at := j;
    while j < |d| - 1
      invariant at <= j < |d| == |r| && r[..at] == d[..at]
      invariant forall k :: at <= k < j ==> r[k] == d[k + 1]
      invariant forall k :: j <= k < |d| ==> r[k] == d[k]
    {
      r := r[j := r[j + 1]];
      j := j + 1;
    }
    r := r[..|d| - 1];
    assert r == d[..at] + d[at + 1..];
    WithoutAt(n, d, at);
  }

  lemma {:induction false} WithoutNone(d: Clause, l: Lit)
    requires l !in d
    ensures Without(d, l) == d
  {
    if d == [] {
      assert Without(d, l) == [];
    } else {
      var k := |d| - 1;
      WithoutNone(d[..k], l);
      assert d[k] in d && d == d[..k] + [d[k]];
    }
  }

  lemma {:induction false} WithoutAt(n: nat, d: Clause, at: nat)
    requires ClauseOk(n, d) && at < |d|
    ensures Without(d, d[at]) == d[..at] + d[at + 1..]
  {
    var k := |d| - 1;
    if at == k {
      WithoutNone(d[..k], d[at]);
    } else {
      WithoutAt(n, d[..k], at);
      assert d[..k][..at] + d[..k][at + 1..] + [d[k]] == d[..at] + d[at + 1..];
    }
  }
}
