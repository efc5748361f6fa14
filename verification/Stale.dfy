/** An answer whose conflict is that of an earlier call. */
module StaleConflicts {
  import opened Lbools
  import opened Literals
  import opened Elimination
  import opened Subsumption
  import opened Simplification
  import opened Solving

  const A := Lit(0, false)
  const P := Lit(1, false)
  const X := Lit(2, false)
  const Y := Lit(3, false)
  const Z := Lit(4, false)
  const B := Lit(5, false)

  /** The clauses of the first call, which exclude `A`, and those added for the second, which have no model. */
  function Clauses(): seq<Clause> {
    [[Neg(A), P], [Neg(A), Neg(P)], [X, Y], [X, Neg(Y)], [Neg(X), Z], [Neg(X), Neg(Z)]]
  }

  /** The store holds these clauses and nothing else. */
  ghost predicate Holds(st: Store, n: nat) {
    && n <= 6 && |st.ca| == |st.dead| == n && |st.assigns| == 6
    && forall cr :: 0 <= cr < n ==> !st.dead[cr] && |st.ca[cr]| == 2 && Same(st.ca[cr], Clauses()[cr])
  }

  ghost predicate Open(assigns: seq<LB>) {
    |assigns| == 6 && assigns[X.v] == LUndef && assigns[Y.v] == LUndef && assigns[Z.v] == LUndef
  }

  lemma OneMoreHeld(a: Store, b: Store, n: nat)
    requires Holds(a, n) && n < 6 && Joined(a, b, Clauses()[n])
    ensures Holds(b, n + 1) && b.assigns == a.assigns
  {
    assert |Clauses()[n]| == 2;
    forall cr | 0 <= cr < n ensures b.ca[cr] == a.ca[cr] { assert b.ca[cr] == b.ca[..n][cr]; }
  }

  lemma PairOk(assigns: seq<LB>, k: Lit, l: Lit)
    requires k.v < |assigns| && l.v < |assigns| && k.v != l.v && assigns[k.v] == LUndef && assigns[l.v] == LUndef
    ensures OpenClause(assigns, [k, l])
  {
  }

  /** The first two clauses exclude `A` and nothing else. */
  lemma FirstTwo(m: Model)
    ensures SatAll(Clauses()[..2], m) <==> A.v !in m
  {
    var orig := Clauses()[..2];
    assert orig[0] in orig && orig[1] in orig && forall c: Clause :: c in orig ==> c == orig[0] || c == orig[1];
    TwoLits(m, Neg(A), P);
    TwoLits(m, Neg(A), Neg(P));
  }

  lemma Undecided(st: Store, record: seq<Clause>)
    requires Preserves(Clauses()[..2], record, st) && |st.assigns| == 6
    ensures Open(st.assigns)
  {
    hide Clauses, SatAll, Extend;
    var none, all: Model := iset{}, iset{X.v, Y.v, Z.v};
    FirstTwo(none);
    FirstTwo(all);
    assert Agrees(st.assigns, none) && Agrees(st.assigns, all);
  }

  lemma TwoLits(m: Model, k: Lit, l: Lit)
    ensures SatClause(m, [k, l]) <==> Makes(m, k) || Makes(m, l)
  {
    assert [k, l][0] == k && [k, l][1] == l;
  }

  lemma SameSatClause(m: Model, c: Clause, k: Lit, l: Lit)
    requires Same(c, [k, l])
    ensures SatClause(m, c) <==> Makes(m, k) || Makes(m, l)
  {
    assert [k, l][0] == k && [k, l][1] == l;
    assert k in c && l in c;
    forall e | e in c ensures e == k || e == l { assert e in [k, l]; }
  }

  lemma NoModel(st: Store, m: Model)
    requires Holds(st, 6)
    ensures !Sat(st, m)
  {
    assert st.Live(2) && st.Live(3) && st.Live(4) && st.Live(5);
    SameSatClause(m, st.ca[2], X, Y);
    SameSatClause(m, st.ca[3], X, Neg(Y));
    SameSatClause(m, st.ca[4], Neg(X), Z);
    SameSatClause(m, st.ca[5], Neg(X), Neg(Z));
  }

  /** What is left after backward subsumption has no literal with a value. */
  lemma NoValues(st: Store, queue: seq<int>, longest: int, b: Store, trail: seq<Lit>, cr: int, l: Lit)
    requires AfterSubsumption(st, queue, 0, longest, b, trail) && Holds(st, 6) && (longest == -1 || longest > 2)
    requires b.Live(cr) && l in b.ca[cr]
    ensures b.ca[cr] == st.ca[cr] && l.v < |b.assigns| && b.assigns[l.v] == LUndef
  {
    assert |b.ca[cr]| >= 2;
    var j :| 0 <= j < |b.ca[cr]| && b.ca[cr][j] == l;
    if b.assigns[l.v] != LUndef {
      var k :| 0 <= k < |trail| && trail[k].v == l.v;
      InReach(trail[k], b.ca[cr], l);
    }
  }

  lemma InReach(t: Lit, c: Clause, l: Lit)
    requires l in c && l.v == t.v
    ensures !NoUse([t], c)
  {
    if l == t {
      assert Within([t], c);
    } else {
      assert l == Neg(t) && t in [t] && AllBut([t], c, t);
    }
  }

  /** Backward subsumption of all six clauses cannot succeed. */
  lemma CannotBeSubsumed(st: Store, queue: seq<int>, longest: int)
    requires Holds(st, 6) && (forall cr :: 0 <= cr < 6 ==> cr in queue) && (longest == -1 || longest > 2)
    ensures !CanBeSubsumed(st, queue, 0, longest)
  {
    hide SameSat, StoreOk, Sat;
    if CanBeSubsumed(st, queue, 0, longest) {
      var b, trail :| AfterSubsumption(st, queue, 0, longest, b, trail);
      var m := Rest(b);
      RestSat(st, queue, longest, b, trail);
      NoModel(st, m);
      Transfer(st, b, m);
    }
  }

  lemma Transfer(a: Store, b: Store, m: Model)
    requires SameSat(a, b)
    ensures Sat(a, m) <==> Sat(b, m)
  {
  }

  /** A model of what is left. */
  ghost function Rest(b: Store): Model {
    iset v: nat | v < |b.assigns| && (b.assigns[v] == LTrue || (b.assigns[v] == LUndef && (v == X.v || (v == Z.v && b.Live(4)))))
  }

  lemma RestSat(st: Store, queue: seq<int>, longest: int, b: Store, trail: seq<Lit>)
    requires AfterSubsumption(st, queue, 0, longest, b, trail) && Holds(st, 6) && (longest == -1 || longest > 2)
    requires forall cr :: 0 <= cr < 6 ==> cr in queue
    ensures Sat(b, Rest(b))
  {
    hide AfterSubsumption;
    var m := Rest(b);
    NotBothLeft(st, queue, longest, b, trail);
    forall cr | b.Live(cr) ensures SatClause(m, b.ca[cr]) { RestClause(st, queue, longest, b, trail, cr); }
  }

  lemma NotBothLeft(st: Store, queue: seq<int>, longest: int, b: Store, trail: seq<Lit>)
    requires AfterSubsumption(st, queue, 0, longest, b, trail) && Holds(st, 6) && (longest == -1 || longest > 2) && 4 in queue
    ensures !(b.Live(4) && b.Live(5))
  {
    if b.Live(4) && b.Live(5) {
      assert |b.ca[4]| >= 2 && |b.ca[5]| >= 2;
      Overlap(b.ca[4], b.ca[5]);
    }
  }

  lemma Overlap(c: Clause, d: Clause)
    requires Same(c, Clauses()[4]) && Same(d, Clauses()[5])
    ensures !NoUse(c, d)
  {
    assert Clauses()[4][0] == Clauses()[5][0] == Neg(X) && Clauses()[4][1] == Z && Clauses()[5][1] == Neg(Z);
    assert AllBut(c, d, Z);
  }

  lemma RestClause(st: Store, queue: seq<int>, longest: int, b: Store, trail: seq<Lit>, cr: int)
    requires AfterSubsumption(st, queue, 0, longest, b, trail) && Holds(st, 6) && (longest == -1 || longest > 2)
    requires b.Live(cr) && !(b.Live(4) && b.Live(5))
    ensures SatClause(Rest(b), b.ca[cr])
  {
    var c := Clauses()[cr];
    assert |b.ca[cr]| >= 2 && b.ca[cr] == st.ca[cr];
    assert c[0] in c && c[1] in c;
    NoValues(st, queue, longest, b, trail, cr, c[0]);
    NoValues(st, queue, longest, b, trail, cr, c[1]);
    SameSatClause(Rest(b), b.ca[cr], c[0], c[1]);
  }

  /** Adds the first `n` clauses that are still missing. */
  method AddClauses(s: SimpSolver, from: nat, to: nat)
    requires from <= to <= 6 && s.Usable() && s.ok && Holds(s.St(), from) && |s.eliminated| == 6
    requires s.orig == Clauses()[..from] && (forall v :: 0 <= v < 6 ==> !s.eliminated[v])
    requires forall cr :: 0 <= cr < from ==> cr in s.queue
    requires forall i :: from <= i < to ==> OpenClause(s.assigns, Clauses()[i])
    modifies s`ca, s`dead, s`abst, s`assigns, s`trail, s`occurs, s`queue, s`touched, s`nTouched, s`ok, s`orig
    ensures s.Usable() && s.ok && Holds(s.St(), to) && s.orig == Clauses()[..to] && s.assigns == old(s.assigns)
    ensures forall cr :: 0 <= cr < to ==> cr in s.queue
  {
    hide Clauses, Holds, OpenClause, Joined, SatAll, Kept, Same, LearntsOk, SimpSolver.Shape, RecordOk, Preserves;
    SetUp();
    for i := from to to
      invariant s.Usable() && s.ok && Holds(s.St(), i) && s.orig == Clauses()[..i] && s.assigns == old(s.assigns)
      invariant forall cr :: 0 <= cr < i ==> cr in s.queue
    {
      ghost var st := s.St();
      StoreLength(st, i);
      var r := s.AddClause(Clauses()[i]);
      OneMoreHeld(st, s.St(), i);
      assert Clauses()[..i + 1] == Clauses()[..i] + [Clauses()[i]];
    }
  }

  lemma SetUp()
    ensures |Clauses()| == 6 && forall i, l :: 0 <= i < 6 && l in Clauses()[i] ==> l.v < 6
  {
  }

  lemma StoreLength(st: Store, n: nat)
    requires Holds(st, n)
    ensures |st.ca| == n
  {
  }

  /** The first call: `A` is assumed, and its negation is the conflict. */
  method FirstCall() returns (s: SimpSolver)
    ensures fresh(s) && s.Usable() && s.ok && s.useSimplification && s.subsumptionLim == 1000 && s.conflict == {Neg(A)}
    ensures Holds(s.St(), 2) && s.orig == Clauses()[..2] && 0 in s.queue && 1 in s.queue && s.bwdsubAssigns == 0
    ensures Open(s.assigns) && |s.eliminated| == 6 && forall v :: 0 <= v < 6 ==> !s.eliminated[v]
  {
    hide Clauses, Holds, OpenClause, SatAll, AllMade, Kept, LearntsOk, SimpSolver.Shape, RecordOk, CanBeSubsumed, Open, Preserves;
    hide NegatedOnly;
    s := new SimpSolver(6, seq(6, _ => false), 0, 20, 1000);
    Empty(s.St());
    FirstOpen(s.assigns);
    AddClauses(s, 0, 2);
    ghost var st := s.St();
    var sat, simplified := Solve(s, [A], false, false, []);
    FirstTwo(iset{});
    OnlyA(sat, s.conflict);
    assert s.ok;
    StillHolds(st, s.St(), 2);
    Undecided(s.St(), s.record);
  }

  lemma StillHolds(a: Store, b: Store, n: nat)
    requires Holds(a, n) && b.ca == a.ca && b.dead == a.dead && |b.assigns| == |a.assigns|
    ensures Holds(b, n) && |b.assigns| == 6
  {
  }

  lemma OnlyA(sat: bool, conflict: set<Lit>)
    requires sat <==> exists m :: SatAll(Clauses()[..2], m) && AllMade(m, [A])
    requires !sat ==> NegatedOnly(conflict, [A])
    requires !sat ==> forall m :: SatAll(Clauses()[..2], m) ==> exists l :: l in conflict && Makes(m, l)
    ensures !sat && conflict == {Neg(A)}
  {
    hide SatAll, Clauses;
    SetUp();
    forall m ensures !(SatAll(Clauses()[..2], m) && AllMade(m, [A])) {
      FirstTwo(m);
      assert A in [A];
    }
    FirstTwo(iset{});
    forall l | l in conflict ensures l == Neg(A) { assert Neg(l) in [A]; }
  }

  /** The second call assumes `B` only and answers with the negation of `A`, the assumption of the first. */
  method StaleConflict(rounds: seq<seq<nat>>) returns (sat: bool, assumptions: seq<Lit>, conflict: set<Lit>)
    requires rounds != [] && forall order, v :: order in rounds && v in order ==> v < 6
    ensures !sat && assumptions == [B] && conflict == {Neg(A)} && !NegatedOnly(conflict, assumptions)
  {
    hide Clauses, Holds, OpenClause, SatAll, AllMade, SimpSolver.Inv, LearntsOk, CanBeSubsumed, Open;
    var s := FirstCall();
    OthersOpen(s.assigns);
    SetUp();
    AddClauses(s, 2, 6);
    CannotBeSubsumed(s.St(), s.queue, s.subsumptionLim);
    assumptions := [B];
    ghost var simplified;
    sat, simplified := Solve(s, assumptions, true, false, rounds);
    conflict := s.conflict;
    assert Neg(A) in conflict && Neg(Neg(A)) !in assumptions;
  }

  lemma Empty(st: Store)
    requires |st.ca| == |st.dead| == 0 && |st.assigns| == 6
    ensures Holds(st, 0) && Clauses()[..0] == []
  {
  }

  lemma FirstOpen(assigns: seq<LB>)
    requires |assigns| == 6 && forall v :: 0 <= v < 6 ==> assigns[v] == LUndef
    ensures forall i :: 0 <= i < 2 ==> OpenClause(assigns, Clauses()[i])
  {
    PairOk(assigns, Neg(A), P);
    PairOk(assigns, Neg(A), Neg(P));
  }

  lemma OthersOpen(assigns: seq<LB>)
    requires Open(assigns)
    ensures forall i :: 2 <= i < 6 ==> OpenClause(assigns, Clauses()[i])
  {
    PairOk(assigns, X, Y);
    PairOk(assigns, X, Neg(Y));
    PairOk(assigns, Neg(X), Z);
    PairOk(assigns, Neg(X), Neg(Z));
  }
}
