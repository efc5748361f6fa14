/** The queries of the engine as clauses for the SAT solver: one variable for every node of the circuit, and one
    activation variable for every clause that a query may or may not use. */
module Encoding {
  import opened Lbools
  import opened Aigs
  import opened Frames
  import opened ClauseSets
  import L = Literals
  import M = Meaning
  import K = Kernels

  /** The solver's literal for a circuit literal. Variable 0 is the constant, so a literal of no node reads as false. */
  function NodeLit(g: Circuit, l: nat): L.Lit {
    if Var(l) < |g.nodes| then L.Lit(Var(l), Sign(l)) else L.Lit(0, false)
  }

  /** A latch literal on the current state. */
  function InLit(g: Circuit, l: LLit): L.Lit {
    if l.latch < |g.latches| then L.Lit(Var(g.latches[l.latch].lit), l.neg) else L.Lit(0, false)
  }

  /** A latch literal on the next state: a literal of the next-state function. */
  function OutLit(g: Circuit, l: LLit): L.Lit {
    if l.latch < |g.latches| then L.Lit(Var(g.latches[l.latch].next), Sign(g.latches[l.latch].next) != l.neg) else L.Lit(0, false)
  }

  /** Clause `c`, to be used when `act` is true. */
  function Guarded(g: Circuit, c: Clause, act: L.Lit): L.Clause {
    [L.Neg(act)] + seq(|c|, k requires 0 <= k < |c| => InLit(g, c[k]))
  }

  // ---------- what the clauses say ----------

  ghost predicate GateSat(g: Circuit, m: L.Model, v: nat)
    requires v < |g.nodes|
  {
    match g.nodes[v]
    case Const => v !in m
    case And(r0, r1) => v in m <==> L.Makes(m, NodeLit(g, r0)) && L.Makes(m, NodeLit(g, r1))
    case _ => true
  }

  ghost predicate GuardSat(g: Circuit, c: Clause, act: L.Lit, m: L.Model) {
    L.Makes(m, act) ==> exists l :: l in c && L.Makes(m, InLit(g, l))
  }

  ghost function GatesUpTo(g: Circuit, n: nat): iset<L.Model>
    requires n <= |g.nodes|
  {
    iset m: L.Model | GatesSat(g, n, m)
  }

  ghost predicate GatesSat(g: Circuit, n: nat, m: L.Model)
    requires n <= |g.nodes|
  {
    forall v :: 0 <= v < n ==> GateSat(g, m, v)
  }

  lemma GuardedMember(g: Circuit, c: Clause, act: L.Lit, e: L.Lit)
    ensures e in Guarded(g, c, act) <==> e == L.Neg(act) || exists l :: l in c && e == InLit(g, l)
  {
    var d := seq(|c|, k requires 0 <= k < |c| => InLit(g, c[k]));
    assert e in Guarded(g, c, act) <==> e == L.Neg(act) || e in d;
    if l :| l in c && e == InLit(g, l) {
      var k :| 0 <= k < |c| && c[k] == l;
      assert d[k] == e;
    }
  }

  lemma GuardedMeaning(g: Circuit, c: Clause, act: L.Lit, m: L.Model)
    ensures L.SatClause(m, Guarded(g, c, act)) <==> GuardSat(g, c, act, m)
  {
    hide InLit, Guarded;
    assert L.Makes(m, L.Neg(act)) <==> !L.Makes(m, act);
    GuardedMember(g, c, act, L.Neg(act));
    if GuardSat(g, c, act, m) && L.Makes(m, act) {
      var l :| l in c && L.Makes(m, InLit(g, l));
      GuardedMember(g, c, act, InLit(g, l));
    }
    if L.SatClause(m, Guarded(g, c, act)) {
      var e :| e in Guarded(g, c, act) && L.Makes(m, e);
      GuardedMember(g, c, act, e);
    }
  }

  lemma GateClauses(g: Circuit, v: nat)
    requires v < |g.nodes| && g.nodes[v].And?
    ensures var p, r0, r1 := L.Lit(v, false), NodeLit(g, g.nodes[v].rhs0), NodeLit(g, g.nodes[v].rhs1);
            With(With(With(GatesUpTo(g, v), [L.Neg(p), r0]), [L.Neg(p), r1]), [p, L.Neg(r0), L.Neg(r1)]) == GatesUpTo(g, v + 1)
  {
    var p, r0, r1 := L.Lit(v, false), NodeLit(g, g.nodes[v].rhs0), NodeLit(g, g.nodes[v].rhs1);
    forall m: L.Model
      ensures GateSat(g, m, v) <==>
                L.SatClause(m, [L.Neg(p), r0]) && L.SatClause(m, [L.Neg(p), r1]) && L.SatClause(m, [p, L.Neg(r0), L.Neg(r1)])
    {
      TwoLits(m, L.Neg(p), r0);
      TwoLits(m, L.Neg(p), r1);
      ThreeLits(m, p, L.Neg(r0), L.Neg(r1));
    }
  }

  lemma TwoLits(m: L.Model, a: L.Lit, b: L.Lit)
    ensures L.SatClause(m, [a, b]) <==> L.Makes(m, a) || L.Makes(m, b)
  {
    assert [a, b][0] == a && [a, b][1] == b;
  }

  lemma ThreeLits(m: L.Model, a: L.Lit, b: L.Lit, c: L.Lit)
    ensures L.SatClause(m, [a, b, c]) <==> L.Makes(m, a) || L.Makes(m, b) || L.Makes(m, c)
  {
    assert [a, b, c][0] == a && [a, b, c][1] == b && [a, b, c][2] == c;
  }

  // ---------- filling the solver ----------

  /** One variable for every node: the constant is false, every gate is the conjunction of its inputs. */
  method AigToCnf(s: K.Solver, g: Circuit)
    requires Means(s, GatesUpTo(g, 0)) && |s.assigns| >= |g.nodes|
    modifies s`ca, s`dead, s`learnt, s`watches, s`dirty, s`assigns, s`reason, s`level, s`pos, s`trail, s`qhead, s`ok
    ensures Means(s, GatesUpTo(g, |g.nodes|)) && |s.assigns| == |old(s.assigns)|
  {
    hide Means, With, GatesUpTo;
    Add(s, [L.Lit(0, true)], GatesUpTo(g, 0));
    ConstantOnly(g);
    for v := 1 to |g.nodes|
      invariant Means(s, GatesUpTo(g, v)) && |s.assigns| == |old(s.assigns)|
    {
      if g.nodes[v].And? {
        var p, r0, r1 := L.Lit(v, false), NodeLit(g, g.nodes[v].rhs0), NodeLit(g, g.nodes[v].rhs1);
        ghost var spec := GatesUpTo(g, v);
        Add(s, [L.Neg(p), r0], spec);
        Add(s, [L.Neg(p), r1], With(spec, [L.Neg(p), r0]));
        Add(s, [p, L.Neg(r0), L.Neg(r1)], With(With(spec, [L.Neg(p), r0]), [L.Neg(p), r1]));
        GateClauses(g, v);
      } else {
        NoGate(g, v);
      }
    }
  }

  lemma ConstantOnly(g: Circuit)
    ensures With(GatesUpTo(g, 0), [L.Lit(0, true)]) == GatesUpTo(g, 1)
  {
    forall m: L.Model ensures L.SatClause(m, [L.Lit(0, true)]) <==> GateSat(g, m, 0) {
      assert g.nodes[0] == Const && [L.Lit(0, true)][0] == L.Lit(0, true);
      assert L.Makes(m, L.Lit(0, true)) <==> 0 !in m;
    }
  }

  lemma NoGate(g: Circuit, v: nat)
    requires 0 < v < |g.nodes| && !g.nodes[v].And?
    ensures GatesUpTo(g, v + 1) == GatesUpTo(g, v)
  {
  }

  // ---------- a query ----------

  /** What the solver is asked to make true besides the activated clauses. */
  function Demands(g: Circuit, post: seq<LLit>, prop: seq<nat>): seq<L.Lit> {
    seq(|prop|, k requires 0 <= k < |prop| => NodeLit(g, prop[k])) + seq(|post|, k requires 0 <= k < |post| => OutLit(g, post[k]))
  }

  lemma DemandsMember(g: Circuit, post: seq<LLit>, prop: seq<nat>, h: L.Lit)
    ensures h in Demands(g, post, prop) <==> (exists p :: p in prop && h == NodeLit(g, p)) || exists l :: l in post && h == OutLit(g, l)
  {
    var b := seq(|prop|, k requires 0 <= k < |prop| => NodeLit(g, prop[k]));
    var c := seq(|post|, k requires 0 <= k < |post| => OutLit(g, post[k]));
    assert h in Demands(g, post, prop) <==> h in b || h in c;
    if p :| p in prop && h == NodeLit(g, p) {
      var k :| 0 <= k < |prop| && prop[k] == p;
      assert b[k] == h;
    }
    if l :| l in post && h == OutLit(g, l) {
      var k :| 0 <= k < |post| && post[k] == l;
      assert c[k] == h;
    }
  }

  // ---------- from models to steps ----------

  function StateOf(g: Circuit, values: seq<LB>): State
    requires |values| >= |g.nodes|
  {
    seq(|g.latches|, i requires 0 <= i < |g.latches| => values[Var(g.latches[i].lit)] == LTrue)
  }

  function InputOf(g: Circuit, values: seq<LB>): seq<bool>
    requires |values| >= |g.nodes|
  {
    seq(|g.inputs|, i requires 0 <= i < |g.inputs| => values[Var(g.inputs[i])] == LTrue)
  }

  ghost function TrueVars(values: seq<LB>): L.Model {
    iset v: nat | v < |values| && values[v] == LTrue
  }

  lemma {:induction false} ModelEval(g: Circuit, values: seq<LB>, v: nat)
    requires v < |g.nodes| <= |values| && TrueVars(values) in GatesUpTo(g, |g.nodes|)
    ensures v in TrueVars(values) <==> Eval(g, v, StateOf(g, values), InputOf(g, values))
  {
    var m := TrueVars(values);
    assert GateSat(g, m, v);
    match g.nodes[v]
    case Const =>
    case Input(i) => assert g.inputs[i] == 2 * v;
    case Latch(i) => assert g.latches[i].lit == 2 * v;
    case And(r0, r1) =>
      ModelEval(g, values, Var(r0));
      ModelEval(g, values, Var(r1));
  }

  lemma ModelNode(g: Circuit, values: seq<LB>, l: nat)
    requires |g.nodes| <= |values| && TrueVars(values) in GatesUpTo(g, |g.nodes|)
    ensures L.Makes(TrueVars(values), NodeLit(g, l)) ==> Var(l) < |g.nodes| && EvalLit(g, l, StateOf(g, values), InputOf(g, values))
  {
    assert GateSat(g, TrueVars(values), 0) && g.nodes[0] == Const;
    if Var(l) < |g.nodes| { ModelEval(g, values, Var(l)); }
  }

  lemma ModelIn(g: Circuit, values: seq<LB>, l: LLit)
    requires |g.nodes| <= |values| && TrueVars(values) in GatesUpTo(g, |g.nodes|)
    ensures L.Makes(TrueVars(values), InLit(g, l)) ==> Holds(l, StateOf(g, values))
  {
    assert GateSat(g, TrueVars(values), 0) && g.nodes[0] == Const;
  }

  lemma ModelOut(g: Circuit, values: seq<LB>, l: LLit)
    requires |g.nodes| <= |values| && TrueVars(values) in GatesUpTo(g, |g.nodes|)
    ensures L.Makes(TrueVars(values), OutLit(g, l)) ==> Holds(l, Next(g, StateOf(g, values), InputOf(g, values)))
  {
    assert GateSat(g, TrueVars(values), 0) && g.nodes[0] == Const;
    if l.latch < |g.latches| { ModelEval(g, values, Var(g.latches[l.latch].next)); }
  }

  lemma ModelGuard(g: Circuit, values: seq<LB>, c: Clause, act: L.Lit)
    requires |g.nodes| <= |values| && TrueVars(values) in GatesUpTo(g, |g.nodes|)
    requires GuardSat(g, c, act, TrueVars(values)) && L.Makes(TrueVars(values), act)
    ensures SatClause(c, StateOf(g, values))
  {
    var l :| l in c && L.Makes(TrueVars(values), InLit(g, l));
    ModelIn(g, values, l);
  }

  lemma StepSizes(g: Circuit, values: seq<LB>)
    requires |values| >= |g.nodes|
    ensures IsState(g, StateOf(g, values)) && IsInput(g, InputOf(g, values))
  {
  }

  lemma NoClauses(s: K.Solver, g: Circuit)
    requires s.Idle() && s.ok && forall m :: M.Problem(s.T(), s.D(), m)
    ensures Means(s, GatesUpTo(g, 0))
  {
    forall m: L.Model ensures m in GatesUpTo(g, 0) {}
  }
}
