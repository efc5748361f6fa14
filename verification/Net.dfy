/** And-inverter graphs as the AIGER library stores them, before and after renumbering. */
module Nets {
  import opened DeltaCodec

  datatype Type = Type(input: bool, latch: bool, and: bool, idx: nat)

  datatype Latch = Latch(lit: nat, next: nat, reset: nat)

  datatype Net = Net(maxvar: nat, inputs: seq<nat>, latches: seq<Latch>, outputs: seq<nat>, bad: seq<nat>,
                     constraints: seq<nat>, justice: seq<seq<nat>>, fairness: seq<nat>, ands: seq<And>, types: seq<Type>)

  function Var(l: nat): nat { l / 2 }

  predicate IsAnd(g: Net, v: nat) { v < |g.types| && g.types[v].and }

  /** A literal of the constant, an input, a latch or a gate. */
  predicate Defined(g: Net, l: nat) {
    Var(l) <= g.maxvar < |g.types| && (Var(l) == 0 || g.types[Var(l)].input || g.types[Var(l)].latch || g.types[Var(l)].and)
  }

  /** `u` is a fan-in of gate `v`. */
  ghost predicate Kid(g: Net, v: nat, u: nat) {
    && IsAnd(g, v) && g.types[v].idx < |g.ands|
    && (u == Var(g.ands[g.types[v].idx].rhs0) || u == Var(g.ands[g.types[v].idx].rhs1))
  }

  /** The table of variables and the lists of inputs, latches and gates agree. */
  ghost predicate TypesOk(g: Net) {
    && |g.types| == g.maxvar + 1 && g.types[0] == Type(false, false, false, g.types[0].idx)
    && (forall v :: 0 <= v < |g.types| ==>
          !(g.types[v].input && g.types[v].latch) && !(g.types[v].input && g.types[v].and) && !(g.types[v].latch && g.types[v].and))
    && (forall v :: 0 <= v < |g.types| && g.types[v].input ==> g.types[v].idx < |g.inputs| && g.inputs[g.types[v].idx] == 2 * v)
    && (forall v :: 0 <= v < |g.types| && g.types[v].latch ==> g.types[v].idx < |g.latches| && g.latches[g.types[v].idx].lit == 2 * v)
    && (forall v :: 0 <= v < |g.types| && g.types[v].and ==> g.types[v].idx < |g.ands| && g.ands[g.types[v].idx].lhs == 2 * v)
    && (forall i :: 0 <= i < |g.inputs| ==> Place(g, g.inputs[i]) && g.types[Var(g.inputs[i])].input && g.types[Var(g.inputs[i])].idx == i)
    && (forall i :: 0 <= i < |g.latches| ==> Place(g, g.latches[i].lit) && g.types[Var(g.latches[i].lit)].latch && g.types[Var(g.latches[i].lit)].idx == i)
    && (forall i :: 0 <= i < |g.ands| ==> Place(g, g.ands[i].lhs) && g.types[Var(g.ands[i].lhs)].and && g.types[Var(g.ands[i].lhs)].idx == i)
  }

  /** A positive literal in range. */
  predicate Place(g: Net, l: nat) { l % 2 == 0 && Var(l) < |g.types| }

  ghost predicate InSome(sets: seq<seq<nat>>, l: nat) { exists j :: 0 <= j < |sets| && l in sets[j] }

  /** The literals whose values the graph is there for. */
  ghost predicate Root(g: Net, l: nat) {
    || l in g.outputs || l in g.bad || l in g.constraints || InSome(g.justice, l) || l in g.fairness
    || exists i :: 0 <= i < |g.latches| && (l == g.latches[i].next || l == g.latches[i].reset)
  }

  ghost predicate WellDefined(g: Net) {
    && TypesOk(g)
    && (forall i :: 0 <= i < |g.ands| ==> Defined(g, g.ands[i].rhs0) && Defined(g, g.ands[i].rhs1))
    && forall l :: Root(g, l) ==> Defined(g, l)
  }

  // ---------- meaning ----------

  ghost predicate LitVal(val: seq<bool>, l: nat) { Var(l) < |val| && val[Var(l)] != (l % 2 == 1) }

  /** `val` gives every variable its value under the inputs `x` in state `s`. */
  ghost predicate Consistent(g: Net, x: seq<bool>, s: seq<bool>, val: seq<bool>) {
    && |x| == |g.inputs| && |s| == |g.latches| && |val| == g.maxvar + 1 && !val[0]
    && (forall i :: 0 <= i < |x| ==> LitVal(val, g.inputs[i]) == x[i])
    && (forall i :: 0 <= i < |s| ==> LitVal(val, g.latches[i].lit) == s[i])
    && forall i :: 0 <= i < |g.ands| ==> LitVal(val, g.ands[i].lhs) == (LitVal(val, g.ands[i].rhs0) && LitVal(val, g.ands[i].rhs1))
  }

  // ---------- cycles ----------

  /** Along every fan-in from gate to gate the rank goes down. */
  ghost predicate Ranked(g: Net, rank: seq<nat>) {
    |rank| == |g.types| && forall v: nat, u: nat :: v < |rank| && u < |rank| && Kid(g, v, u) && IsAnd(g, u) ==> rank[u] < rank[v]
  }

  ghost predicate Acyclic(g: Net) { exists rank :: Ranked(g, rank) }

  lemma KidsDefined(g: Net, v: nat, u: nat)
    requires WellDefined(g) && Kid(g, v, u)
    ensures u <= g.maxvar && v <= g.maxvar && (u == 0 || g.types[u].input || g.types[u].latch || g.types[u].and)
  {
  }

  /** The value of a variable by recursion along the rank. */
  ghost function Eval(g: Net, rank: seq<nat>, x: seq<bool>, s: seq<bool>, v: nat): bool
    requires WellDefined(g) && Ranked(g, rank) && |x| == |g.inputs| && |s| == |g.latches| && v < |g.types|
    decreases rank[v], 1
  {
    if g.types[v].input then x[g.types[v].idx]
    else if g.types[v].latch then s[g.types[v].idx]
    else if g.types[v].and then
      var a := g.ands[g.types[v].idx];
      KidsDefined(g, v, Var(a.rhs0));
      KidsDefined(g, v, Var(a.rhs1));
      EvalKid(g, rank, x, s, v, a.rhs0) && EvalKid(g, rank, x, s, v, a.rhs1)
    else false
  }

  ghost function EvalKid(g: Net, rank: seq<nat>, x: seq<bool>, s: seq<bool>, v: nat, l: nat): bool
    requires WellDefined(g) && Ranked(g, rank) && |x| == |g.inputs| && |s| == |g.latches| && v < |g.types|
    requires Var(l) < |g.types| && Kid(g, v, Var(l))
    decreases rank[v], 0
  {
    (if g.types[Var(l)].and then Eval(g, rank, x, s, Var(l)) else Base(g, x, s, Var(l))) != (l % 2 == 1)
  }

  /** The value of an input, a latch or the constant. */
  ghost function Base(g: Net, x: seq<bool>, s: seq<bool>, v: nat): bool
    requires WellDefined(g) && |x| == |g.inputs| && |s| == |g.latches| && v < |g.types|
  {
    if g.types[v].input then x[g.types[v].idx] else if g.types[v].latch then s[g.types[v].idx] else false
  }

  /** Without cycles there is a valuation for all inputs and states. */
  lemma ValuationExists(g: Net, x: seq<bool>, s: seq<bool>) returns (val: seq<bool>)
    requires WellDefined(g) && Acyclic(g) && |x| == |g.inputs| && |s| == |g.latches|
    ensures Consistent(g, x, s, val)
  {
    var rank :| Ranked(g, rank);
    val := seq(|g.types|, v requires 0 <= v < |g.types| => Eval(g, rank, x, s, v));
    forall i | 0 <= i < |g.ands|
      ensures LitVal(val, g.ands[i].lhs) == (LitVal(val, g.ands[i].rhs0) && LitVal(val, g.ands[i].rhs1))
    {
      var a := g.ands[i];
      var v := Var(a.lhs);
      assert Place(g, a.lhs) && g.types[v].and && g.types[v].idx == i;
      KidsDefined(g, v, Var(a.rhs0));
      KidsDefined(g, v, Var(a.rhs1));
      assert val[v] == Eval(g, rank, x, s, v);
      forall l | l == a.rhs0 || l == a.rhs1 ensures LitVal(val, l) == EvalKid(g, rank, x, s, v, l) {
        assert val[Var(l)] == Eval(g, rank, x, s, Var(l));
      }
    }
    forall i | 0 <= i < |x| ensures LitVal(val, g.inputs[i]) == x[i] { assert Place(g, g.inputs[i]); }
    forall i | 0 <= i < |s| ensures LitVal(val, g.latches[i].lit) == s[i] { assert Place(g, g.latches[i].lit); }
  }
}
