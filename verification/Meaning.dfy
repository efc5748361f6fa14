/** What the solver's state says about models: the problem clauses and the literals fixed on decision level 0. */
module Meaning {
  import opened Lbools
  import opened Literals
  import opened Trails
  import opened Watching

  /** The model satisfies every problem clause and every literal of level 0. */
  ghost predicate Problem(t: Trail, d: Db, m: Model) {
    && (forall cr :: d.Live(cr) && cr < |d.learnt| && !d.learnt[cr] ==> SatClause(m, d.ca[cr]))
    && forall k :: 0 <= k < t.Roots() && k < |t.lits| ==> Makes(m, t.lits[k])
  }

  /** Learnt clauses follow from the problem. */
  ghost predicate Learned(t: Trail, d: Db) {
    forall m, cr :: Problem(t, d, m) && d.Live(cr) ==> SatClause(m, d.ca[cr])
  }

  ghost predicate SameProblem(t: Trail, d: Db, u: Trail, e: Db) {
    forall m :: Problem(t, d, m) <==> Problem(u, e, m)
  }

  /** Clause `c` holds in every model of the problem. */
  ghost predicate Implied(t: Trail, d: Db, c: Clause) {
    forall m :: Problem(t, d, m) ==> SatClause(m, c)
  }

  lemma SameTrans(t: Trail, d: Db, u: Trail, e: Db, v: Trail, f: Db)
    requires SameProblem(t, d, u, e) && SameProblem(u, e, v, f)
    ensures SameProblem(t, d, v, f)
  {
  }

  lemma SameTwice(t: Trail, d: Db, u: Trail, e: Db, v: Trail, f: Db, w: Trail, h: Db)
    requires SameProblem(t, d, u, e) && SameProblem(u, e, v, f) && SameProblem(v, f, w, h)
    ensures SameProblem(t, d, w, h)
  {
  }

  lemma SameRefl(t: Trail, d: Db)
    ensures SameProblem(t, d, t, d)
  {
  }

  /** Reordering literals and changing watch lists does not matter. */
  ghost predicate Reordered(d: Db, e: Db) {
    && |d.ca| == |e.ca| && d.dead == e.dead && d.learnt == e.learnt
    && forall cr :: 0 <= cr < |d.ca| ==> Same(d.ca[cr], e.ca[cr])
  }

  lemma ReorderedModels(t: Trail, d: Db, e: Db, m: Model)
    requires Reordered(d, e)
    ensures Problem(t, d, m) <==> Problem(t, e, m)
    ensures forall cr :: d.Live(cr) ==> e.Live(cr) && (SatClause(m, d.ca[cr]) <==> SatClause(m, e.ca[cr]))
  {
    hide Same, SatClause;
    forall cr | 0 <= cr < |d.ca| ensures SatClause(m, d.ca[cr]) <==> SatClause(m, e.ca[cr]) {
      SameMeaning(d.ca[cr], e.ca[cr], m);
    }
  }

  lemma ReorderedProblem(t: Trail, d: Db, e: Db)
    requires Reordered(d, e)
    ensures SameProblem(t, d, t, e) && (Learned(t, d) ==> Learned(t, e))
  {
    hide Problem, SatClause;
    forall m ensures Problem(t, d, m) <==> Problem(t, e, m) { ReorderedModels(t, d, e, m); }
    if Learned(t, d) {
      forall m, cr | Problem(t, e, m) && e.Live(cr) ensures SatClause(m, e.ca[cr]) {
        ReorderedModels(t, d, e, m);
        assert d.Live(cr);
      }
    }
  }

  ghost predicate RootsMade(t: Trail, m: Model) {
    forall k :: 0 <= k < t.Roots() && k < |t.lits| ==> Makes(m, t.lits[k])
  }

  lemma RootFalse(t: Trail, m: Model, l: Lit)
    requires TrailOk(t) && RootsMade(t, m) && FalseBefore(t, l, t.Roots())
    ensures !Makes(m, l)
  {
    assert t.lits[t.pos[l.v]] == Neg(l);
  }

  lemma FalseAtRoot(t: Trail, d: Db, m: Model, k: Lit)
    requires TrailOk(t) && Problem(t, d, m) && FalseBefore(t, k, t.Roots())
    ensures !Makes(m, k)
  {
    RootFalse(t, m, k);
  }

  /** The literals of level 0 and the clauses leave one literal of a clause to be true. */
  lemma LastLiteral(t: Trail, d: Db, m: Model, c: Clause, l: Lit)
    requires TrailOk(t) && Problem(t, d, m) && SatClause(m, c)
    requires forall k :: k in c && k != l ==> FalseBefore(t, k, t.Roots())
    ensures Makes(m, l)
  {
    var k :| k in c && Makes(m, k);
    if k != l { FalseAtRoot(t, d, m, k); }
  }

  /** An implied literal at the end of the trail adds nothing to the problem. */
  lemma EnqueueProblem(t: Trail, d: Db, l: Lit, from: nat)
    requires TrailOk(t) && Learned(t, d) && MayEnqueue(t, d, l, from)
    ensures var u := Enqueued(t, l, from); SameProblem(t, d, u, d) && Learned(u, d)
  {
    hide Listed, Levels, SatClause, FalseBefore, Learned;
    var u := Enqueued(t, l, from);
    forall m ensures Problem(t, d, m) <==> Problem(u, d, m) {
      if Problem(t, d, m) && t.lim == [] { Forced(t, d, l, from, m); }
      if Problem(u, d, m) {
        forall k | 0 <= k < t.Roots() ensures Makes(m, t.lits[k]) { assert u.lits[k] == t.lits[k]; }
      }
    }
    SameLearned(t, d, u);
  }

  lemma SameLearned(t: Trail, d: Db, u: Trail)
    requires Learned(t, d) && SameProblem(t, d, u, d)
    ensures Learned(u, d)
  {
  }

  lemma Forced(t: Trail, d: Db, l: Lit, from: nat, m: Model)
    requires TrailOk(t) && Learned(t, d) && MayEnqueue(t, d, l, from) && t.lim == [] && Problem(t, d, m)
    ensures Makes(m, l)
  {
    var c := d.ca[from];
    forall k | k in c && k != l ensures FalseBefore(t, k, t.Roots()) {
      var j :| 0 <= j < |c| && c[j] == k;
    }
    assert SatClause(m, c);
    LastLiteral(t, d, m, c, l);
  }

  lemma NewLevelProblem(t: Trail, d: Db)
    requires TrailOk(t)
    ensures SameProblem(t, d, NewLevel(t), d) && (Learned(t, d) ==> Learned(NewLevel(t), d))
  {
    if Learned(t, d) { SameLearned(t, d, NewLevel(t)); }
  }

  lemma CutProblem(t: Trail, d: Db, level: nat)
    requires TrailOk(t) && level < |t.lim|
    ensures SameProblem(t, d, CutTo(t, level), d) && (Learned(t, d) ==> Learned(CutTo(t, level), d))
  {
    hide Listed, Levels;
    var u := CutTo(t, level);
    assert u.Roots() == t.Roots() && t.Roots() <= |t.lits|;
    forall m ensures Problem(t, d, m) <==> Problem(u, d, m) {
      forall k | 0 <= k < t.Roots() ensures u.lits[k] == t.lits[k] {}
    }
    if Learned(t, d) { SameLearned(t, d, u); }
  }

  lemma ImpliedStays(t: Trail, d: Db, u: Trail, e: Db, c: Clause)
    requires Implied(t, d, c) && SameProblem(t, d, u, e)
    ensures Implied(u, e, c)
  {
  }

  /** A decision is no statement about models. */
  lemma DecideProblem(t: Trail, d: Db, l: Lit)
    requires TrailOk(t) && |t.lim| > 0 && MayEnqueue(t, d, l, -1)
    ensures var u := Enqueued(t, l, -1); SameProblem(t, d, u, d) && (Learned(t, d) ==> Learned(u, d))
  {
    hide Listed, Levels, SatClause;
    var u := Enqueued(t, l, -1);
    forall m ensures Problem(t, d, m) <==> Problem(u, d, m) {
      forall k | 0 <= k < t.Roots() ensures u.lits[k] == t.lits[k] {}
    }
    if Learned(t, d) { SameLearned(t, d, u); }
  }

  /** A literal fixed on level 0 restricts the models to those that make it true. */
  lemma RootProblem(t: Trail, d: Db, l: Lit, m: Model)
    requires TrailOk(t) && t.lim == [] && MayEnqueue(t, d, l, -1)
    ensures Problem(Enqueued(t, l, -1), d, m) <==> Problem(t, d, m) && Makes(m, l)
  {
    var u := Enqueued(t, l, -1);
    if Problem(u, d, m) {
      assert u.lits[|t.lits|] == l;
      forall k | 0 <= k < |t.lits| ensures Makes(m, t.lits[k]) { assert u.lits[k] == t.lits[k]; }
    }
  }

  lemma RootLearned(t: Trail, d: Db, l: Lit)
    requires TrailOk(t) && t.lim == [] && MayEnqueue(t, d, l, -1) && Learned(t, d)
    ensures Learned(Enqueued(t, l, -1), d)
  {
    hide Problem, SatClause, Listed, Limits, Levels;
    forall m, cr | Problem(Enqueued(t, l, -1), d, m) && d.Live(cr) ensures SatClause(m, d.ca[cr]) {
      RootProblem(t, d, l, m);
    }
  }

  /** A learnt clause says nothing new. */
  lemma AttachLearnt(t: Trail, d: Db, c: Clause)
    requires ClausesOk(t.Size(), d) && |c| >= 2 && ToInt(Neg(c[0])) < |d.watches| && ToInt(Neg(c[1])) < |d.watches|
    requires Learned(t, d) && Implied(t, d, c)
    ensures var e := Attached(d, c, true); SameProblem(t, d, t, e) && Learned(t, e)
  {
    hide SatClause, ToInt, Neg;
    var e := Attached(d, c, true);
    forall b | e.Live(b) ensures if b == |d.ca| then e.ca[b] == c && e.learnt[b] else d.Live(b) && e.ca[b] == d.ca[b] && e.learnt[b] == d.learnt[b] {}
    forall b | d.Live(b) ensures e.Live(b) && e.ca[b] == d.ca[b] && e.learnt[b] == d.learnt[b] {}
    forall m ensures Problem(t, d, m) <==> Problem(t, e, m) {}
  }

  /** A problem clause restricts the models to those that satisfy it. */
  lemma AttachProblem(t: Trail, d: Db, c: Clause, m: Model)
    requires ClausesOk(t.Size(), d) && |c| >= 2 && ToInt(Neg(c[0])) < |d.watches| && ToInt(Neg(c[1])) < |d.watches|
    ensures Problem(t, Attached(d, c, false), m) <==> Problem(t, d, m) && SatClause(m, c)
  {
    hide SatClause, ToInt, Neg;
    var e := Attached(d, c, false);
    assert e.Live(|d.ca|) && e.ca[|d.ca|] == c;
    forall b | e.Live(b) ensures if b == |d.ca| then e.ca[b] == c else d.Live(b) && e.ca[b] == d.ca[b] && e.learnt[b] == d.learnt[b] {}
    forall b | d.Live(b) ensures e.Live(b) && e.ca[b] == d.ca[b] && e.learnt[b] == d.learnt[b] {}
  }

  lemma AttachedLearned(t: Trail, d: Db, c: Clause)
    requires ClausesOk(t.Size(), d) && |c| >= 2 && ToInt(Neg(c[0])) < |d.watches| && ToInt(Neg(c[1])) < |d.watches|
    requires Learned(t, d)
    ensures Learned(t, Attached(d, c, false))
  {
    hide SatClause, ToInt, Neg, Problem;
    var e := Attached(d, c, false);
    forall m, b | Problem(t, e, m) && e.Live(b) ensures SatClause(m, e.ca[b]) {
      AttachProblem(t, d, c, m);
      if b < |d.ca| { assert d.Live(b) && e.ca[b] == d.ca[b]; }
    }
  }

  /** The model agrees with every literal on the trail. */
  ghost predicate Extends(t: Trail, m: Model) {
    forall k :: 0 <= k < |t.lits| ==> Makes(m, t.lits[k])
  }

  /** When propagation is complete and every variable of a clause is assigned, the trail is a model. */
  lemma TrailIsModel(t: Trail, d: Db, m: Model)
    requires Kernel(t, d, |t.lits|, {}, 0) && Extends(t, m)
    requires forall cr, l :: d.Live(cr) && l in d.ca[cr] ==> t.Val(l) != LUndef
    ensures Problem(t, d, m)
  {
    hide DbOk, ReasonsOk, WatchOk, Limits, Levels;
    forall cr | d.Live(cr) ensures SatClause(m, d.ca[cr]) {
      Propagated(t, d, cr);
      if |d.ca[cr]| > 0 { assert d.ca[cr][0] in d.ca[cr]; }
      var l :| l in d.ca[cr] && t.Val(l) == LTrue;
      assert t.lits[t.pos[l.v]] == l;
    }
  }

  /** A clause that is false on level 0 refutes the problem. */
  lemma RootConflict(t: Trail, d: Db, cr: int, m: Model)
    requires TrailOk(t) && Learned(t, d) && d.Live(cr) && t.lim == []
    requires forall j :: 0 <= j < |d.ca[cr]| ==> t.Val(d.ca[cr][j]) == LFalse
    ensures !Problem(t, d, m)
  {
    if Problem(t, d, m) {
      assert SatClause(m, d.ca[cr]);
      var l :| l in d.ca[cr] && Makes(m, l);
      var j :| 0 <= j < |d.ca[cr]| && d.ca[cr][j] == l;
      FalseAtRoot(t, d, m, l);
    }
  }

  /** A clause may be removed if it was learnt, or if a literal of it is true on level 0. */
  ghost predicate Dispensable(t: Trail, d: Db, cr: nat) {
    d.Live(cr) && cr < |d.learnt| && (d.learnt[cr] || exists k :: 0 <= k < t.Roots() && k < |t.lits| && t.lits[k] in d.ca[cr])
  }

  lemma RemoveMeaning(t: Trail, d: Db, cr: nat)
    requires Dispensable(t, d, cr) && Learned(t, d) && |d.ca| == |d.dead| && |d.ca[cr]| >= 2
    requires ToInt(Neg(d.ca[cr][0])) < |d.dirty| && ToInt(Neg(d.ca[cr][1])) < |d.dirty|
    ensures var u, e := Unlocked(t, d, cr), Removed(d, cr); SameProblem(t, d, u, e) && Learned(u, e)
  {
    hide SatClause, ToInt, Neg, Locked;
    var u, e := Unlocked(t, d, cr), Removed(d, cr);
    forall b | b != cr ensures d.Live(b) <==> e.Live(b) {}
    forall m ensures Problem(t, d, m) <==> Problem(u, e, m) {
      if Problem(u, e, m) && !d.learnt[cr] {
        var k :| 0 <= k < t.Roots() && k < |t.lits| && t.lits[k] in d.ca[cr];
        assert Makes(m, u.lits[k]);
        MakesSat(m, d.ca[cr], t.lits[k]);
      }
    }
  }

  lemma MakesSat(m: Model, c: Clause, l: Lit)
    requires l in c && Makes(m, l)
    ensures SatClause(m, c)
  {
  }

  /** Literals that are false on level 0 contribute nothing to a clause. */
  lemma TrimMeaning(t: Trail, d: Db, cr: nat, c: Clause, gone: set<Lit>)
    requires TrailOk(t) && Learned(t, d) && d.Live(cr) && TrimmedTo(t, d.ca[cr], c, gone)
    ensures var e := Trimmed(d, cr, c, gone); SameProblem(t, d, t, e) && Learned(t, e)
  {
    hide TrailOk, SatClause, ClauseOk;
    var e := Trimmed(d, cr, c, gone);
    forall b | b != cr ensures (d.Live(b) <==> e.Live(b)) && (d.Live(b) ==> d.ca[b] == e.ca[b]) {}
    forall m | RootsMade(t, m) ensures SatClause(m, c) <==> SatClause(m, d.ca[cr]) { TrimmedSat(t, d.ca[cr], c, gone, m); }
    assert e.Live(cr);
  }

  lemma TrimmedSat(t: Trail, b: Clause, c: Clause, gone: set<Lit>, m: Model)
    requires TrailOk(t) && RootsMade(t, m) && TrimmedTo(t, b, c, gone)
    ensures SatClause(m, c) <==> SatClause(m, b)
  {
    forall l | l in gone ensures !Makes(m, l) { RootFalse(t, m, l); }
  }

  /** The model with the literals of the trail that are about `vs`. */
  ghost function Released(t: Trail, vs: set<nat>, m: Model): Model {
    iset v: nat | if v in vs then exists k :: 0 <= k < |t.lits| && t.lits[k] == Lit(v, false) else v in m
  }

  lemma ReleasedLit(t: Trail, vs: set<nat>, m: Model, l: Lit)
    requires TrailOk(t)
    ensures l.v !in vs ==> (Makes(Released(t, vs, m), l) <==> Makes(m, l))
    ensures l.v in vs && l in t.lits ==> Makes(Released(t, vs, m), l)
  {
    if l in t.lits { OneSide(t, l); }
  }

  lemma OneSide(t: Trail, l: Lit)
    requires TrailOk(t) && l in t.lits
    ensures forall k :: 0 <= k < |t.lits| ==> t.lits[k] != Neg(l)
  {
    forall k | 0 <= k < |t.lits| ensures t.lits[k] != Neg(l) { assert t.Val(l) == LTrue && t.Val(t.lits[k]) == LTrue; }
  }

  lemma ReleasedClause(t: Trail, vs: set<nat>, m: Model, c: Clause)
    requires TrailOk(t) && forall l :: l in c ==> l.v !in vs
    ensures SatClause(Released(t, vs, m), c) <==> SatClause(m, c)
  {
    hide TrailOk;
    forall l | l in c ensures Makes(Released(t, vs, m), l) <==> Makes(m, l) { ReleasedLit(t, vs, m, l); }
  }

  /** Afterwards nothing is said about the recycled variables, and what is said about the others is as before. */
  lemma RecycleMeaning(t: Trail, d: Db, e: Db, vs: set<nat>, m: Model)
    requires TrailOk(t) && t.lim == [] && Unmentioned(d, vs) && e.ca == d.ca && e.dead == d.dead && e.learnt == d.learnt
    ensures Problem(Recycled(t, vs), e, m) <==> Problem(t, d, Released(t, vs, m))
  {
    hide TrailOk, SatClause, Makes;
    forall cr | d.Live(cr) ensures e.Live(cr) && (SatClause(Released(t, vs, m), d.ca[cr]) <==> SatClause(m, e.ca[cr])) {
      ReleasedClause(t, vs, m, d.ca[cr]);
    }
    RootsReleased(t, vs, m);
  }

  lemma RootsReleased(t: Trail, vs: set<nat>, m: Model)
    requires TrailOk(t)
    ensures (forall i :: 0 <= i < |Others(t.lits, vs)| ==> Makes(m, Others(t.lits, vs)[i])) <==>
            (forall k :: 0 <= k < |t.lits| ==> Makes(Released(t, vs, m), t.lits[k]))
  {
    hide TrailOk, Makes;
    if forall i :: 0 <= i < |Others(t.lits, vs)| ==> Makes(m, Others(t.lits, vs)[i]) {
      forall k | 0 <= k < |t.lits| ensures Makes(Released(t, vs, m), t.lits[k]) {
        ReleasedLit(t, vs, m, t.lits[k]);
        if t.lits[k].v !in vs { OthersAt(t.lits, vs, k); }
      }
    }
    if forall k :: 0 <= k < |t.lits| ==> Makes(Released(t, vs, m), t.lits[k]) {
      forall i | 0 <= i < |Others(t.lits, vs)| ensures Makes(m, Others(t.lits, vs)[i]) {
        var k := OthersFrom(t.lits, vs, i);
        ReleasedLit(t, vs, m, t.lits[k]);
      }
    }
  }

  lemma RecycleLearned(t: Trail, d: Db, e: Db, vs: set<nat>)
    requires TrailOk(t) && t.lim == [] && Unmentioned(d, vs) && e.ca == d.ca && e.dead == d.dead && e.learnt == d.learnt && Learned(t, d)
    ensures Learned(Recycled(t, vs), e)
  {
    hide Listed, Limits, Levels, SatClause, Problem;
    forall m, cr | Problem(Recycled(t, vs), e, m) && e.Live(cr) ensures SatClause(m, e.ca[cr]) {
      RecycleMeaning(t, d, e, vs, m);
      assert d.Live(cr);
      ReleasedClause(t, vs, m, d.ca[cr]);
    }
  }
}
