/** Variable elimination by resolution, and the extension of a model to the eliminated variables. */
module Elimination {
  import opened Lbools
  import opened Literals

  // ---------- resolvents ----------

  ghost predicate Mentions(c: Clause, v: nat) { exists l :: l in c && l.v == v }

  /** The two clauses clash on a variable other than `v`: their resolvent on `v` is always true. */
  ghost predicate Tautology(ps: Clause, qs: Clause, v: nat) {
    exists l :: l in ps && l.v != v && Neg(l) in qs
  }

  /** The literals of `ps` off `v`. */
  function Off(ps: Clause, v: nat): Clause {
    if ps == [] then []
    else Off(ps[..|ps| - 1], v) + (if ps[|ps| - 1].v != v then [ps[|ps| - 1]] else [])
  }

  /** The literals of `qs` off `v` that `ps` does not have. */
  function Extra(qs: Clause, ps: Clause, v: nat): Clause {
    if qs == [] then []
    else
      var l := qs[|qs| - 1];
      Extra(qs[..|qs| - 1], ps, v) + (if l.v != v && l !in ps then [l] else [])
  }

  /** The resolvent as it is built: what the shorter clause adds, then the longer clause without `v`. */
  function Resolvent(ps: Clause, qs: Clause, v: nat): Clause {
    if |ps| < |qs| then Extra(ps, qs, v) + Off(qs, v) else Extra(qs, ps, v) + Off(ps, v)
  }

  lemma {:induction false} OffMember(ps: Clause, v: nat, l: Lit)
    ensures l in Off(ps, v) <==> l in ps && l.v != v
  {
    if ps != [] { OffMember(ps[..|ps| - 1], v, l); }
  }

  lemma {:induction false} ExtraMember(qs: Clause, ps: Clause, v: nat, l: Lit)
    ensures l in Extra(qs, ps, v) <==> l in qs && l.v != v && l !in ps
  {
    if qs != [] { ExtraMember(qs[..|qs| - 1], ps, v, l); }
  }

  /** The resolvent has exactly the literals of both clauses off `v`. */
  lemma ResolventMember(ps: Clause, qs: Clause, v: nat, l: Lit)
    ensures l in Resolvent(ps, qs, v) <==> (l in ps || l in qs) && l.v != v
  {
    ExtraMember(ps, qs, v, l);
    ExtraMember(qs, ps, v, l);
    OffMember(ps, v, l);
    OffMember(qs, v, l);
  }

  /** The variables of a clause without repetition, one of them `v`: exactly one literal goes. */
  lemma {:induction false} OffSize(n: nat, ps: Clause, v: nat)
    requires ClauseOk(n, ps)
    ensures |Off(ps, v)| == |ps| - (if Mentions(ps, v) then 1 else 0)
  {
    if ps != [] {
      var k := |ps| - 1;
      OffSize(n, ps[..k], v);
      assert ps == ps[..k] + [ps[k]] && ps[k] in ps;
      assert forall l :: l in ps <==> l in ps[..k] || l == ps[k];
    }
  }

  /** A model of both parents is a model of the resolvent. */
  lemma ResolutionSound(m: Model, ps: Clause, qs: Clause, v: nat, x: Lit)
    requires SatClause(m, ps) && SatClause(m, qs) && x.v == v
    requires (forall l :: l in ps && l.v == v ==> l == x) && (forall l :: l in qs && l.v == v ==> l == Neg(x))
    ensures SatClause(m, Resolvent(ps, qs, v))
  {
    var l :| l in ps && Makes(m, l);
    var k :| k in qs && Makes(m, k);
    ResolventMember(ps, qs, v, l);
    ResolventMember(ps, qs, v, k);
  }

  lemma TautologySymmetric(ps: Clause, qs: Clause, v: nat)
    ensures Tautology(ps, qs, v) <==> Tautology(qs, ps, v)
  {
    if Tautology(ps, qs, v) { var l :| l in ps && l.v != v && Neg(l) in qs; assert Neg(Neg(l)) == l; }
    if Tautology(qs, ps, v) { var l :| l in qs && l.v != v && Neg(l) in ps; assert Neg(Neg(l)) == l; }
  }

  lemma ResolventSymmetric(ps: Clause, qs: Clause, v: nat, m: Model)
    ensures SatClause(m, Resolvent(ps, qs, v)) <==> SatClause(m, Resolvent(qs, ps, v))
  {
    hide Resolvent;
    forall l ensures l in Resolvent(ps, qs, v) <==> l in Resolvent(qs, ps, v) {
      ResolventMember(ps, qs, v, l);
      ResolventMember(qs, ps, v, l);
    }
  }

  /** All resolvents of the two sides that are not tautologies, in the order in which they are built: those of the first
      `i` clauses, and of clause `i` with the first `j` clauses of the other side. */
  ghost predicate ResolventsSat(ps: seq<Clause>, qs: seq<Clause>, v: nat, i: nat, j: nat, m: Model) {
    forall a, b :: 0 <= a < |ps| && 0 <= b < |qs| && (a < i || (a == i && b < j)) && !Tautology(ps[a], qs[b], v) ==>
      SatClause(m, Resolvent(ps[a], qs[b], v))
  }

  /** The clauses have the literal `x` and no other literal on its variable. */
  ghost predicate Side(ps: seq<Clause>, x: Lit) {
    forall p: Clause :: p in ps ==> x in p && forall l: Lit :: l in p && l.v == x.v ==> l == x
  }

  ghost predicate SatAll(cs: seq<Clause>, m: Model) { forall c: Clause :: c in cs ==> SatClause(m, c) }

  lemma ResolventsSound(ps: seq<Clause>, qs: seq<Clause>, x: Lit, m: Model)
    requires Side(ps, x) && Side(qs, Neg(x)) && SatAll(ps, m) && SatAll(qs, m)
    ensures ResolventsSat(ps, qs, x.v, |ps|, 0, m)
  {
    hide Resolvent, SatClause;
    forall a, b | 0 <= a < |ps| && 0 <= b < |qs| ensures SatClause(m, Resolvent(ps[a], qs[b], x.v)) {
      assert ps[a] in ps && qs[b] in qs;
      ResolutionSound(m, ps[a], qs[b], x.v, x);
    }
  }

  /** How many resolvents there are among the pairs of the first `i` clauses with all others, and of clause `i` with the
      first `j` others. */
  ghost function Pairs(ps: seq<Clause>, qs: seq<Clause>, v: nat, i: nat, j: nat): nat
    requires i <= |ps| && j <= |qs| && (i == |ps| ==> j == 0)
    decreases i, j
  {
    if j > 0 then Pairs(ps, qs, v, i, j - 1) + (if Tautology(ps[i], qs[j - 1], v) then 0 else 1)
    else if i > 0 then Pairs(ps, qs, v, i - 1, |qs|)
    else 0
  }

  lemma {:induction false} PairsMono(ps: seq<Clause>, qs: seq<Clause>, v: nat, i: nat, j: nat)
    requires i <= |ps| && j <= |qs| && (i == |ps| ==> j == 0)
    ensures Pairs(ps, qs, v, i, j) <= Pairs(ps, qs, v, |ps|, 0)
    decreases |ps| - i, |qs| - j
  {
    if i < |ps| {
      if j < |qs| { PairsMono(ps, qs, v, i, j + 1); } else { PairsMono(ps, qs, v, i + 1, 0); }
    }
  }

  /** The bounds on an elimination: not too many resolvents, none of them too long. */
  ghost predicate Bounded(ps: seq<Clause>, qs: seq<Clause>, v: nat, most: int, longest: int) {
    && (Pairs(ps, qs, v, |ps|, 0) > 0 ==> Pairs(ps, qs, v, |ps|, 0) <= most)
    && (longest != -1 ==> forall a, b :: 0 <= a < |ps| && 0 <= b < |qs| && !Tautology(ps[a], qs[b], v) ==>
                            |Resolvent(ps[a], qs[b], v)| <= longest)
  }

  /** Looks for a literal on the variable of `l`. */
  method MatchVar(ps: Clause, l: Lit, ghost n: nat) returns (found: bool, clash: bool)
    requires ClauseOk(n, ps)
    ensures (clash <==> Neg(l) in ps) && (!clash ==> (found <==> l in ps))
  {
    for j := 0 to |ps|
      invariant forall k :: 0 <= k < j ==> ps[k].v != l.v
    {
      if ps[j].v == l.v {
        assert ps[j] in ps;
        return true, ps[j] == Neg(l);
      }
    }
    return false, false;
  }

  ghost predicate NoClash(qs: Clause, i: nat, ps: Clause, v: nat) {
    i <= |qs| && forall k :: 0 <= k < i ==> qs[k].v == v || Neg(qs[k]) !in ps
  }

  lemma Clashes(qs: Clause, i: nat, ps: Clause, v: nat)
    requires i < |qs| && qs[i].v != v && Neg(qs[i]) in ps
    ensures Tautology(qs, ps, v) && Tautology(ps, qs, v)
  {
    assert qs[i] in qs;
    TautologySymmetric(qs, ps, v);
  }

  lemma NeverClashes(qs: Clause, ps: Clause, v: nat)
    requires NoClash(qs, |qs|, ps, v)
    ensures !Tautology(qs, ps, v) && !Tautology(ps, qs, v)
  {
    TautologySymmetric(qs, ps, v);
  }

  lemma ExtraNext(qs: Clause, ps: Clause, v: nat, i: nat)
    requires i < |qs|
    ensures Extra(qs[..i + 1], ps, v) == Extra(qs[..i], ps, v) + (if qs[i].v != v && qs[i] !in ps then [qs[i]] else [])
  {
    assert qs[..i + 1][..i] == qs[..i];
  }

  lemma OffNext(ps: Clause, v: nat, i: nat)
    requires i < |ps|
    ensures Off(ps[..i + 1], v) == Off(ps[..i], v) + (if ps[i].v != v then [ps[i]] else [])
  {
    assert ps[..i + 1][..i] == ps[..i];
  }

  /** The resolvent of two clauses on `v`, unless it is a tautology. */
  method Merge(p: Clause, q: Clause, v: nat, ghost n: nat) returns (r: bool, out: Clause)
    requires ClauseOk(n, p) && ClauseOk(n, q)
    ensures r <==> !Tautology(p, q, v)
    ensures r ==> out == Resolvent(p, q, v)
  {
    hide Tautology, ClauseOk;
    var smallest := |p| < |q|;
    var ps, qs := if smallest then q else p, if smallest then p else q;
    out := [];
    for i := 0 to |qs|
      invariant out == Extra(qs[..i], ps, v) && NoClash(qs, i, ps, v)
    {
      ExtraNext(qs, ps, v, i);
      if qs[i].v != v {
        var found, clash := MatchVar(ps, qs[i], n);
        if clash {
          Clashes(qs, i, ps, v);
          return false, out;
        }
        if !found {
          out := out + [qs[i]];
        }
      }
    }
    NeverClashes(qs, ps, v);
    assert qs[..|qs|] == qs;
    ghost var extra := out;
    for i := 0 to |ps|
      invariant out == extra + Off(ps[..i], v)
    {
      OffNext(ps, v, i);
      if ps[i].v != v {
        out := out + [ps[i]];
      }
    }
    assert ps[..|ps|] == ps;
    return true, out;
  }

  /** The length of the resolvent, without building it. */
  method MergeSize(p: Clause, q: Clause, v: nat, ghost n: nat) returns (r: bool, size: int)
    requires ClauseOk(n, p) && ClauseOk(n, q) && Mentions(p, v) && Mentions(q, v)
    ensures r <==> !Tautology(p, q, v)
    ensures r ==> size == |Resolvent(p, q, v)|
  {
    hide Tautology, ClauseOk, Mentions;
    var smallest := |p| < |q|;
    var ps, qs := if smallest then q else p, if smallest then p else q;
    OffSize(n, ps, v);
    size := |ps| - 1;
    for i := 0 to |qs|
      invariant size == |ps| - 1 + |Extra(qs[..i], ps, v)| && NoClash(qs, i, ps, v)
    {
      ExtraNext(qs, ps, v, i);
      if qs[i].v != v {
        var found, clash := MatchVar(ps, qs[i], n);
        if clash {
          Clashes(qs, i, ps, v);
          return false, size;
        }
        if !found {
          size := size + 1;
        }
      }
    }
    NeverClashes(qs, ps, v);
    assert qs[..|qs|] == qs;
    return true, size;
  }

  // ---------- extending a model ----------

  ghost function Set(m: Model, l: Lit): Model {
    if l.neg then m - iset{l.v} else m + iset{l.v}
  }

  /** One recorded clause: if its other literals are all false, its first literal is made true. */
  ghost function Flip(e: Clause, m: Model): Model {
    if e == [] || (exists l :: l in e[1..] && Makes(m, l)) then m else Set(m, e[0])
  }

  /** The recorded clauses from the last to the first. */
  ghost function Extend(es: seq<Clause>, m: Model): Model {
    if es == [] then m else Extend(es[..|es| - 1], Flip(es[|es| - 1], m))
  }

  lemma {:induction false} ExtendAppend(es: seq<Clause>, fs: seq<Clause>, m: Model)
    ensures Extend(es + fs, m) == Extend(es, Extend(fs, m))
  {
    if fs == [] {
      assert es + fs == es;
    } else {
      var n := |fs| - 1;
      assert (es + fs)[..|es + fs| - 1] == es + fs[..n];
      ExtendAppend(es, fs[..n], Flip(fs[n], m));
    }
  }

  lemma SetMakes(m: Model, l: Lit, k: Lit)
    ensures Makes(Set(m, l), l) && (k.v != l.v ==> (Makes(Set(m, l), k) <==> Makes(m, k)))
  {
  }

  /** Only first variables change. */
  lemma {:induction false} ExtendOff(es: seq<Clause>, m: Model, l: Lit)
    requires forall e: Clause :: e in es ==> e != [] && e[0].v != l.v
    ensures Makes(Extend(es, m), l) <==> Makes(m, l)
  {
    if es != [] {
      var n := |es| - 1;
      assert es[n] in es && forall e: Clause :: e in es[..n] ==> e in es;
      ExtendOff(es[..n], Flip(es[n], m), l);
      SetMakes(m, es[n][0], l);
    }
  }

  lemma ExtendOffClause(es: seq<Clause>, m: Model, c: Clause)
    requires forall e: Clause, l: Lit :: e in es && l in c ==> e != [] && e[0].v != l.v
    ensures SatClause(Extend(es, m), c) <==> SatClause(m, c)
  {
    forall l | l in c ensures Makes(Extend(es, m), l) <==> Makes(m, l) { ExtendOff(es, m, l); }
  }

  /** The clauses recorded for one side of `v` all start with the literal `y`. */
  ghost predicate Fronts(fs: seq<Clause>, y: Lit) {
    forall f: Clause :: f in fs ==> f != [] && f[0] == y && forall l: Lit :: l in f[1..] ==> l.v != y.v
  }

  ghost predicate RestTrue(f: Clause, m: Model) {
    f != [] && exists l :: l in f[1..] && Makes(m, l)
  }

  lemma RestOff(f: Clause, m: Model, y: Lit)
    requires f != [] && forall l :: l in f[1..] ==> l.v != y.v
    ensures RestTrue(f, Set(m, y)) <==> RestTrue(f, m)
  {
    if RestTrue(f, m) { var l :| l in f[1..] && Makes(m, l); SetMakes(m, y, l); }
    if RestTrue(f, Set(m, y)) { var l :| l in f[1..] && Makes(Set(m, y), l); SetMakes(m, y, l); }
  }

  /** Scanning one side: `y` is made true exactly if some clause needs it. */
  lemma {:induction false} ExtendFronts(fs: seq<Clause>, m: Model, y: Lit)
    requires Fronts(fs, y)
    ensures Extend(fs, m) == if forall f :: f in fs ==> RestTrue(f, m) then m else Set(m, y)
  {
    if fs != [] {
      var n := |fs| - 1;
      var f, rest, h := fs[n], fs[..n], Flip(fs[n], m);
      assert f in fs && (forall e: Clause :: e in rest ==> e in fs) && (forall e: Clause :: e in fs ==> e in rest || e == f);
      ExtendFronts(rest, h, y);
      if !RestTrue(f, m) {
        assert h == Set(m, y);
        forall e | e in rest ensures RestTrue(e, h) <==> RestTrue(e, m) { RestOff(e, m, y); }
        assert Set(h, y) == h;
      }
    }
  }

  /** What is recorded when a variable is eliminated: the clauses of one side, `y` in front, and the literal that
      satisfies the other side. */
  ghost function Group(fs: seq<Clause>, y: Lit): seq<Clause> { fs + [[Neg(y)]] }

  lemma GroupModel(fs: seq<Clause>, m: Model, y: Lit)
    requires Fronts(fs, y)
    ensures Extend(Group(fs, y), m) == if forall f :: f in fs ==> RestTrue(f, m) then Set(m, Neg(y)) else Set(m, y)
  {
    var x := Neg(y);
    assert Group(fs, y)[..|fs|] == fs && Group(fs, y)[|fs|] == [x];
    assert Flip([x], m) == Set(m, x);
    ExtendFronts(fs, Set(m, x), y);
    forall f | f in fs ensures RestTrue(f, Set(m, x)) <==> RestTrue(f, m) { RestOff(f, m, x); }
    assert Set(Set(m, x), y) == Set(m, y);
  }

  /** Elimination is invertible: a model of all resolvents of the two sides, extended by the group recorded for one
      side, is a model of both sides. */
  lemma GroupSatisfies(side: seq<Clause>, other: seq<Clause>, fs: seq<Clause>, m: Model, y: Lit)
    requires Fronts(fs, y) && |fs| == |side| && (forall i :: 0 <= i < |side| ==> Same(fs[i], side[i]))
    requires Side(other, Neg(y)) && ResolventsSat(side, other, y.v, |side|, 0, m)
    ensures SatAll(side + other, Extend(Group(fs, y), m))
  {
    hide Extend, Group, Resolvent, SatClause, ResolventsSat;
    var r := Extend(Group(fs, y), m);
    GroupModel(fs, m, y);
    forall c | c in side + other ensures SatClause(r, c) {
      if forall f :: f in fs ==> RestTrue(f, m) {
        AllRests(side, other, fs, m, y, c);
      } else {
        var f :| f in fs && !RestTrue(f, m);
        SomeRest(side, other, fs, m, y, f, c);
      }
    }
  }

  lemma AllRests(side: seq<Clause>, other: seq<Clause>, fs: seq<Clause>, m: Model, y: Lit, c: Clause)
    requires Fronts(fs, y) && |fs| == |side| && (forall i :: 0 <= i < |side| ==> Same(fs[i], side[i]))
    requires Side(other, Neg(y)) && c in side + other && forall f :: f in fs ==> RestTrue(f, m)
    ensures SatClause(Set(m, Neg(y)), c)
  {
    SetMakes(m, Neg(y), y);
    if c !in other {
      var i :| 0 <= i < |side| && side[i] == c;
      assert fs[i] in fs;
      var l :| l in fs[i][1..] && Makes(m, l);
      SetMakes(m, Neg(y), l);
      assert l in fs[i];
    }
  }

  lemma SomeRest(side: seq<Clause>, other: seq<Clause>, fs: seq<Clause>, m: Model, y: Lit, f: Clause, c: Clause)
    requires Fronts(fs, y) && |fs| == |side| && (forall i :: 0 <= i < |side| ==> Same(fs[i], side[i]))
    requires Side(other, Neg(y)) && ResolventsSat(side, other, y.v, |side|, 0, m) && c in side + other
    requires f in fs && !RestTrue(f, m)
    ensures SatClause(Set(m, y), c)
  {
    hide Resolvent;
    SetMakes(m, y, y);
    if c in other {
      var i :| 0 <= i < |fs| && fs[i] == f;
      var b :| 0 <= b < |other| && other[b] == c;
      assert !Tautology(side[i], other[b], y.v) ==> SatClause(m, Resolvent(side[i], other[b], y.v));
      OtherSide(m, side[i], c, f, y);
    } else {
      var j :| 0 <= j < |side| && side[j] == c;
      assert fs[j] in fs && y in fs[j];
    }
  }

  /** A clause of the one side whose rest is false forces the rest of every clause of the other side. */
  lemma OtherSide(m: Model, p: Clause, d: Clause, f: Clause, y: Lit)
    requires Same(f, p) && f != [] && f[0] == y && !RestTrue(f, m) && (forall l :: l in f[1..] ==> l.v != y.v)
    requires !Tautology(p, d, y.v) ==> SatClause(m, Resolvent(p, d, y.v))
    requires forall l: Lit :: l in d && l.v == y.v ==> l == Neg(y)
    ensures SatClause(Set(m, y), d)
  {
    hide Resolvent;
    var l: Lit;
    if Tautology(p, d, y.v) {
      var k :| k in p && k.v != y.v && Neg(k) in d;
      assert k in f && k in f[1..];
      l := Neg(k);
    } else {
      forall k | k in p && k.v != y.v ensures !Makes(m, k) { assert k in f && k in f[1..]; }
      l :| l in Resolvent(p, d, y.v) && Makes(m, l);
      ResolventMember(p, d, y.v, l);
    }
    SetMakes(m, y, l);
  }

  // ---------- the record as a list of integers ----------

  function Ints(c: Clause): seq<nat> { seq(|c|, k requires 0 <= k < |c| => ToInt(c[k])) }

  /** Every recorded clause as the integers of its literals followed by their number. */
  function Flatten(es: seq<Clause>): seq<nat> {
    if es == [] then [] else Flatten(es[..|es| - 1]) + Ints(es[|es| - 1]) + [|es[|es| - 1]|]
  }

  lemma FlattenLast(es: seq<Clause>, k: nat)
    requires 0 < k <= |es|
    ensures Flatten(es[..k]) == Flatten(es[..k - 1]) + Ints(es[k - 1]) + [|es[k - 1]|]
  {
    assert es[..k][..k - 1] == es[..k - 1];
  }

  lemma FlattenAppend(es: seq<Clause>, e: Clause)
    ensures Flatten(es + [e]) == Flatten(es) + Ints(e) + [|e|]
  {
    assert (es + [e])[..|es|] == es;
  }

  lemma {:induction false} FlattenSize(es: seq<Clause>)
    requires forall e: Clause :: e in es ==> e != []
    ensures |Flatten(es)| >= 2 * |es|
  {
    if es != [] {
      var n := |es| - 1;
      assert es[n] in es && forall e: Clause :: e in es[..n] ==> e in es;
      FlattenSize(es[..n]);
    }
  }

  /** The step of a recorded clause on a partial model, where undefined counts as satisfied. */
  ghost function FlipPartial(e: Clause, md: seq<LB>): seq<LB> {
    if e == [] || e[0].v >= |md| || (exists k :: 1 <= k < |e| && Value(md, e[k]) != LFalse) then md
    else md[e[0].v := FromBool(!e[0].neg)]
  }

  ghost function ExtendPartial(es: seq<Clause>, md: seq<LB>): seq<LB> {
    if es == [] then md else ExtendPartial(es[..|es| - 1], FlipPartial(es[|es| - 1], md))
  }

  lemma PartialLast(es: seq<Clause>, k: nat, md: seq<LB>)
    requires 0 < k <= |es|
    ensures ExtendPartial(es[..k], md) == ExtendPartial(es[..k - 1], FlipPartial(es[k - 1], md))
  {
    assert es[..k][..k - 1] == es[..k - 1];
  }

  /** The model has the values that are defined. */
  ghost predicate Agrees(md: seq<LB>, m: Model) {
    forall v :: 0 <= v < |md| && md[v] != LUndef ==> (v in m <==> md[v] == LTrue)
  }

  ghost predicate Known(md: seq<LB>, known: set<nat>) {
    forall v :: v in known ==> v < |md| && md[v] != LUndef
  }

  /** Scanned from the end, a recorded clause only looks at variables that are known by then: those of `known`, and the
      variables of unit clauses recorded after it. */
  ghost predicate Ordered(es: seq<Clause>, known: set<nat>) {
    es == [] ||
    var e := es[|es| - 1];
    && e != [] && (forall l: Lit :: l in e[1..] ==> l.v in known)
    && Ordered(es[..|es| - 1], if |e| == 1 then known + {e[0].v} else known)
  }

  lemma FlipAgrees(e: Clause, md: seq<LB>, m: Model, known: set<nat>)
    requires Agrees(md, m) && Known(md, known) && e != [] && e[0].v < |md| && forall l: Lit :: l in e[1..] ==> l.v in known
    ensures var h := FlipPartial(e, md);
            |h| == |md| && Agrees(h, Flip(e, m)) && Known(h, if |e| == 1 then known + {e[0].v} else known)
  {
    forall k | 1 <= k < |e| ensures Value(md, e[k]) != LFalse <==> Makes(m, e[k]) {
      assert e[k] == e[1..][k - 1] && e[k] in e[1..];
    }
    if exists l :: l in e[1..] && Makes(m, l) {
      var l :| l in e[1..] && Makes(m, l);
      var j :| 0 <= j < |e| - 1 && e[1..][j] == l;
      assert e[j + 1] == l;
    }
  }

  /** On a model that defines all variables that are still in use, the scan of integers is the extension of a model. */
  lemma {:induction false} ExtendAgrees(es: seq<Clause>, md: seq<LB>, m: Model, known: set<nat>)
    requires Agrees(md, m) && Known(md, known) && Ordered(es, known) && forall e: Clause :: e in es ==> e != [] && e[0].v < |md|
    ensures |ExtendPartial(es, md)| == |md| && Agrees(ExtendPartial(es, md), Extend(es, m))
    ensures forall e: Clause :: e in es && |e| == 1 ==> ExtendPartial(es, md)[e[0].v] != LUndef
    ensures forall v :: v in known ==> ExtendPartial(es, md)[v] != LUndef
  {
    if es != [] {
      var n := |es| - 1;
      assert es[n] in es && (forall e: Clause :: e in es[..n] ==> e in es);
      assert forall e: Clause :: e in es ==> e in es[..n] || e == es[n];
      FlipAgrees(es[n], md, m, known);
      ExtendAgrees(es[..n], FlipPartial(es[n], md), Flip(es[n], m),
                   if |es[n]| == 1 then known + {es[n][0].v} else known);
    }
  }

  lemma {:induction false} OrderedMono(es: seq<Clause>, known: set<nat>, more: set<nat>)
    requires Ordered(es, known) && known <= more
    ensures Ordered(es, more)
  {
    if es != [] {
      var e := es[|es| - 1];
      OrderedMono(es[..|es| - 1], if |e| == 1 then known + {e[0].v} else known, if |e| == 1 then more + {e[0].v} else more);
    }
  }

  /** A group for a variable `v` on top of the record, `v` no longer being known. */
  lemma {:induction false} OrderedGroup(es: seq<Clause>, fs: seq<Clause>, y: Lit, known: set<nat>)
    requires Ordered(es, known) && Fronts(fs, y) && forall f: Clause, l: Lit :: f in fs && l in f[1..] ==> l.v in known - {y.v}
    ensures Ordered(es + Group(fs, y), known - {y.v})
  {
    var all := es + Group(fs, y);
    assert all[|all| - 1] == [Neg(y)] && all[..|all| - 1] == es + fs;
    OrderedFronts(es, fs, y, known, known - {y.v} + {y.v});
  }

  lemma {:induction false} OrderedFronts(es: seq<Clause>, fs: seq<Clause>, y: Lit, known: set<nat>, more: set<nat>)
    requires Ordered(es, known) && Fronts(fs, y) && known <= more
    requires forall f: Clause, l: Lit :: f in fs && l in f[1..] ==> l.v in known - {y.v}
    ensures Ordered(es + fs, more)
  {
    if fs == [] {
      assert es + fs == es;
      OrderedMono(es, known, more);
    } else {
      var n := |fs| - 1;
      assert (es + fs)[..|es + fs| - 1] == es + fs[..n] && (es + fs)[|es + fs| - 1] == fs[n] && fs[n] in fs;
      assert forall f: Clause :: f in fs[..n] ==> f in fs;
      OrderedFronts(es, fs[..n], y, known, if |fs[n]| == 1 then more + {fs[n][0].v} else more);
    }
  }

  /** `c` with the literal on `v` in front. */
  lemma FrontOk(n: nat, c: Clause, k: nat, y: Lit)
    requires ClauseOk(n, c) && k < |c| && c[k] == y
    ensures var f := Swap(c, 0, k); Same(f, c) && f[0] == y && forall l: Lit :: l in f[1..] ==> l.v != y.v && l in c
  {
    SwapOk(n, c, 0, k);
    var f := Swap(c, 0, k);
    forall l | l in f[1..] ensures l.v != y.v && l in c {
      var j :| 0 <= j < |f| - 1 && f[1..][j] == l;
      assert f[j + 1] == l && l in f;
    }
  }

  /** The clauses recorded for one side: each with the literal on the variable in front. */
  ghost predicate Recorded(fs: seq<Clause>, side: seq<Clause>, y: Lit) {
    Fronts(fs, y) && |fs| == |side| && forall i :: 0 <= i < |side| ==> Same(fs[i], side[i])
  }

  /** The clauses of the shorter side have been recorded, and the literal that satisfies the other side. */
  ghost predicate ShorterRecorded(before: seq<Clause>, after: seq<Clause>, ps: seq<Clause>, qs: seq<Clause>, v: nat) {
    exists fs, y :: ShorterGroup(fs, y, ps, qs, v) && after == before + Group(fs, y)
  }

  ghost predicate ShorterGroup(fs: seq<Clause>, y: Lit, ps: seq<Clause>, qs: seq<Clause>, v: nat) {
    y == Lit(v, |ps| > |qs|) && Recorded(fs, if y.neg then qs else ps, y)
  }
}
