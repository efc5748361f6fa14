/** Literals, clauses and their meaning, as the SAT solver sees them. */
module Literals {
  import opened Lbools

  datatype Lit = Lit(v: nat, neg: bool)

  function Neg(l: Lit): Lit { Lit(l.v, !l.neg) }

  /** The integer that stands for a literal: variable and sign packed, so that a literal and its negation are
      neighbours. */
  function ToInt(l: Lit): nat { 2 * l.v + if l.neg then 1 else 0 }

  function ToLit(i: nat): Lit { Lit(i / 2, i % 2 == 1) }

  lemma ToIntInverse(l: Lit, i: nat)
    ensures ToLit(ToInt(l)) == l && ToInt(ToLit(i)) == i
  {
  }

  type Clause = seq<Lit>

  /** A total assignment, given by the variables it makes true. */
  type Model = iset<nat>

  ghost predicate Makes(m: Model, l: Lit) { (l.v in m) != l.neg }

  ghost predicate SatClause(m: Model, c: Clause) {
    exists l :: l in c && Makes(m, l)
  }

  lemma EmptyFalse()
    ensures forall m :: !SatClause(m, [])
  {
  }

  ghost predicate Same(c: Clause, d: Clause) {
    forall l :: l in c <==> l in d
  }

  lemma SameMeaning(c: Clause, d: Clause, m: Model)
    requires Same(c, d)
    ensures SatClause(m, c) <==> SatClause(m, d)
  {
    if SatClause(m, c) { var l :| l in c && Makes(m, l); assert l in d; }
    if SatClause(m, d) { var l :| l in d && Makes(m, l); assert l in c; }
  }

  /** Variables in range, no variable twice: neither duplicates nor tautologies. */
  ghost predicate ClauseOk(n: nat, c: Clause) {
    && (forall k :: 0 <= k < |c| ==> c[k].v < n)
    && forall j, k :: 0 <= j < k < |c| ==> c[j].v != c[k].v
  }

  function Value(assigns: seq<LB>, l: Lit): LB {
    if l.v < |assigns| then assigns[l.v].Xor(l.neg) else LUndef
  }

  lemma ValueNeg(assigns: seq<LB>, l: Lit)
    ensures Value(assigns, Neg(l)) == LFalse <==> Value(assigns, l) == LTrue
    ensures Value(assigns, Neg(l)) == LTrue <==> Value(assigns, l) == LFalse
    ensures Value(assigns, Neg(l)) == LUndef <==> Value(assigns, l) == LUndef
  {
  }

  function Swap(c: Clause, i: nat, j: nat): Clause
    requires i < |c| && j < |c|
  {
    c[i := c[j]][j := c[i]]
  }

  lemma SwapOk(n: nat, c: Clause, i: nat, j: nat)
    requires i < |c| && j < |c|
    ensures Same(Swap(c, i, j), c) && (ClauseOk(n, c) ==> ClauseOk(n, Swap(c, i, j)))
  {
    var s := Swap(c, i, j);
    forall l | l in c ensures l in s {
      var k :| 0 <= k < |c| && c[k] == l;
      assert s[if k == i then j else if k == j then i else k] == l;
    }
  }

  // ---------- sorting, and removing what level 0 decides ----------

  ghost predicate Sorted(c: Clause) {
    forall j, k :: 0 <= j < k < |c| ==> ToInt(c[j]) <= ToInt(c[k])
  }

  /** Selection sort by the integers of the literals. */
  method Sort(c: Clause) returns (s: Clause)
    ensures Sorted(s) && Same(s, c) && |s| == |c|
  {
    s := c;
    for i := 0 to |c|
      invariant |s| == |c| && Same(s, c)
      invariant forall j, k :: 0 <= j < k < |s| && j < i ==> ToInt(s[j]) <= ToInt(s[k])
    {
      var best := i;
      for j := i + 1 to |s|
        invariant i <= best < |s| && forall k :: i <= k < j ==> ToInt(s[best]) <= ToInt(s[k])
      {
        if ToInt(s[j]) < ToInt(s[best]) {
          best := j;
        }
      }
      SwapOk(0, s, i, best);
      ghost var before := s;
      s := Swap(s, i, best);
      assert forall k :: i <= k < |s| ==> ToInt(before[best]) <= ToInt(before[k]);
    }
  }

  /** Variables strictly increasing. */
  ghost predicate Ascending(c: Clause) {
    forall j, k :: 0 <= j < k < |c| ==> c[j].v < c[k].v
  }

  /** Removes false and repeated literals from a sorted clause, unless a literal is true or occurs with both signs. */
  method Filter(assigns: seq<LB>, ps: Clause) returns (satisfied: bool, kept: Clause)
    requires Sorted(ps)
    ensures satisfied ==> exists l :: l in ps && (Value(assigns, l) == LTrue || Neg(l) in ps)
    ensures !satisfied ==> Ascending(kept)
    ensures !satisfied ==> forall l :: l in kept ==> l in ps && Value(assigns, l) == LUndef
    ensures !satisfied ==> forall l :: l in ps ==> l in kept || Value(assigns, l) == LFalse
  {
    satisfied, kept := false, [];
    for i := 0 to |ps|
      invariant Ascending(kept) && (kept != [] ==> exists j :: 0 <= j < i && ps[j] == kept[|kept| - 1])
      invariant forall l :: l in kept ==> l in ps[..i] && Value(assigns, l) == LUndef
      invariant forall l :: l in ps[..i] ==> l in kept || Value(assigns, l) == LFalse
    {
      assert ps[i] in ps && ps[..i + 1] == ps[..i] + [ps[i]];
      if Value(assigns, ps[i]) == LTrue || (kept != [] && ps[i] == Neg(kept[|kept| - 1])) {
        return true, kept;
      } else if Value(assigns, ps[i]) != LFalse && (kept == [] || ps[i] != kept[|kept| - 1]) {
        kept := kept + [ps[i]];
      }
    }
    assert ps[..|ps|] == ps;
  }

  lemma AscendingOk(n: nat, c: Clause)
    requires Ascending(c) && forall l :: l in c ==> l.v < n
    ensures ClauseOk(n, c)
  {
  }
}
