/** And-inverter graphs whose fan-ins precede their gates (the order of the binary format), with their
    two-valued and three-valued meaning. */
module Aigs {
  import opened Lbools

  function Var(l: nat): nat { l / 2 }

  predicate Sign(l: nat) { l % 2 == 1 }

  datatype Node = Const | Input(idx: nat) | Latch(idx: nat) | And(rhs0: nat, rhs1: nat)

  /** `reset` is undefined for a latch that may start with either value. */
  datatype LatchDef = LatchDef(lit: nat, next: nat, reset: LB)

  datatype Aig = Aig(nodes: seq<Node>, inputs: seq<nat>, latches: seq<LatchDef>)
  {
    ghost predicate Ordered() {
      && |nodes| > 0 && nodes[0] == Const
      && (forall v {:trigger nodes[v]} :: 0 < v < |nodes| ==>
            match nodes[v]
            case Const => false
            case Input(i) => i < |inputs| && inputs[i] == 2 * v
            case Latch(i) => i < |latches| && latches[i].lit == 2 * v
            case And(r0, r1) => Var(r0) < v && Var(r1) < v)
      && (forall i :: 0 <= i < |inputs| ==> Var(inputs[i]) < |nodes| && nodes[Var(inputs[i])] == Input(i))
      && (forall i :: 0 <= i < |latches| ==>
            && Var(latches[i].lit) < |nodes| && nodes[Var(latches[i].lit)] == Latch(i)
            && Var(latches[i].next) < |nodes|)
    }
  }

  type Circuit = g: Aig | g.Ordered() witness Aig([Const], [], [])

  type State = seq<bool>

  ghost predicate IsState(g: Circuit, s: State) { |s| == |g.latches| }

  ghost predicate IsInput(g: Circuit, x: seq<bool>) { |x| == |g.inputs| }

  // ---------- two-valued meaning ----------

  predicate Eval(g: Circuit, v: nat, s: State, x: seq<bool>)
    requires v < |g.nodes| && |s| == |g.latches| && |x| == |g.inputs|
    decreases v, 0
  {
    match g.nodes[v]
    case Const => false
    case Input(i) => if i < |x| then x[i] else false
    case Latch(i) => if i < |s| then s[i] else false
    case And(r0, r1) => EvalLit(g, r0, s, x) && EvalLit(g, r1, s, x)
  }

  predicate EvalLit(g: Circuit, l: nat, s: State, x: seq<bool>)
    requires Var(l) < |g.nodes| && |s| == |g.latches| && |x| == |g.inputs|
    decreases Var(l), 1
  {
    Eval(g, Var(l), s, x) != Sign(l)
  }

  /** The transition relation is a function of the state and the inputs. */
  function Next(g: Circuit, s: State, x: seq<bool>): (t: State)
    requires |s| == |g.latches| && |x| == |g.inputs|
    ensures IsState(g, t)
  {
    seq(|g.latches|, i requires 0 <= i < |g.latches| => EvalLit(g, g.latches[i].next, s, x))
  }

  ghost predicate IsReset(g: Circuit, s: State) {
    && IsState(g, s)
    && forall i :: 0 <= i < |s| ==> g.latches[i].reset.Below(FromBool(s[i]))
  }

  /** A finite sequence of steps: every state follows from its predecessor under the input. */
  ghost predicate IsPath(g: Circuit, trace: seq<State>, xs: seq<seq<bool>>) {
    && |trace| == |xs| > 0
    && (forall k :: 0 <= k < |xs| ==> IsState(g, trace[k]) && IsInput(g, xs[k]))
    && forall k :: 0 <= k < |trace| - 1 ==> trace[k + 1] == Next(g, trace[k], xs[k])
  }

  /** A finite execution: a path that starts in a reset state. */
  ghost predicate IsRun(g: Circuit, trace: seq<State>, xs: seq<seq<bool>>) {
    IsPath(g, trace, xs) && IsReset(g, trace[0])
  }

  lemma PathCons(g: Circuit, s: State, x: seq<bool>, trace: seq<State>, xs: seq<seq<bool>>)
    requires IsState(g, s) && IsInput(g, x) && IsPath(g, trace, xs) && trace[0] == Next(g, s, x)
    ensures IsPath(g, [s] + trace, [x] + xs)
  {
    var t, ys := [s] + trace, [x] + xs;
    forall k | 0 <= k < |t| - 1 ensures t[k + 1] == Next(g, t[k], ys[k]) {
      if k > 0 { assert t[k] == trace[k - 1] && ys[k] == xs[k - 1] && trace[k - 1 + 1] == Next(g, trace[k - 1], xs[k - 1]); }
    }
  }

  function Pow2(n: nat): (p: nat)
    ensures p > 0
  {
    if n == 0 then 1 else 2 * Pow2(n - 1)
  }

  // ---------- three-valued meaning ----------

  function LitVal(a: seq<LB>, l: nat): LB
    requires Var(l) < |a|
  {
    a[Var(l)].Xor(Sign(l))
  }

  function Gate(a: seq<LB>, r0: nat, r1: nat): LB
    requires Var(r0) < |a| && Var(r1) < |a|
  {
    LitVal(a, r0).And(LitVal(a, r1))
  }

  ghost predicate IsGate(g: Circuit, o: int) {
    0 <= o < |g.nodes| && g.nodes[o].And?
  }

  ghost function GateOf(g: Circuit, a: seq<LB>, o: nat): LB
    requires |a| == |g.nodes| && IsGate(g, o)
  {
    Gate(a, g.nodes[o].rhs0, g.nodes[o].rhs1)
  }

  /** Every AND gate holds the Kleene conjunction of its fan-ins. */
  ghost predicate Consistent(g: Circuit, a: seq<LB>) {
    && |a| == |g.nodes|
    && forall o :: IsGate(g, o) ==> a[o] == GateOf(g, a, o)
  }

  /** The Kleene value of a variable from the values that `a` gives to the leaves. */
  ghost function Kleene(g: Circuit, a: seq<LB>, v: nat): LB
    requires v < |g.nodes| == |a|
  {
    match g.nodes[v]
    case And(r0, r1) => Kleene(g, a, Var(r0)).Xor(Sign(r0)).And(Kleene(g, a, Var(r1)).Xor(Sign(r1)))
    case _ => a[v]
  }

  ghost function Settle(g: Circuit, a: seq<LB>): seq<LB>
    requires |a| == |g.nodes|
  {
    seq(|a|, v requires 0 <= v < |a| => Kleene(g, a, v))
  }

  ghost predicate SameLeaves(g: Circuit, a: seq<LB>, b: seq<LB>) {
    && |a| == |b| == |g.nodes|
    && forall v :: 0 <= v < |g.nodes| && !g.nodes[v].And? ==> a[v] == b[v]
  }

  ghost predicate AllBelow(a: seq<LB>, b: seq<LB>) {
    && |a| == |b|
    && forall v :: 0 <= v < |a| ==> a[v].Below(b[v])
  }

  lemma GateMonotone(a: seq<LB>, b: seq<LB>, r0: nat, r1: nat)
    requires Var(r0) < |a| && Var(r1) < |a| && AllBelow(a, b)
    ensures Gate(a, r0, r1).Below(Gate(b, r0, r1))
  {
    assert a[Var(r0)].Below(b[Var(r0)]) && a[Var(r1)].Below(b[Var(r1)]);
  }

  lemma {:induction false} KleeneOfConsistent(g: Circuit, a: seq<LB>, b: seq<LB>, v: nat)
    requires Consistent(g, a) && SameLeaves(g, a, b) && v < |g.nodes|
    ensures Kleene(g, b, v) == a[v]
  {
    match g.nodes[v]
    case And(r0, r1) =>
      KleeneOfConsistent(g, a, b, Var(r0));
      KleeneOfConsistent(g, a, b, Var(r1));
      assert a[v] == GateOf(g, a, v);
    case _ =>
  }

  /** A consistent assignment is the settled one of its leaves, so it is the only one. */
  lemma SettleUnique(g: Circuit, a: seq<LB>, b: seq<LB>)
    requires Consistent(g, a) && SameLeaves(g, a, b)
    ensures Settle(g, b) == a
  {
    forall v | 0 <= v < |a| ensures Settle(g, b)[v] == a[v] {
      KleeneOfConsistent(g, a, b, v);
    }
  }

  lemma SettleConsistent(g: Circuit, a: seq<LB>)
    requires |a| == |g.nodes|
    ensures Consistent(g, Settle(g, a)) && SameLeaves(g, Settle(g, a), a)
  {
    forall o | IsGate(g, o) ensures Settle(g, a)[o] == GateOf(g, Settle(g, a), o) {
      var And(r0, r1) := g.nodes[o];
      assert Kleene(g, a, o) == Kleene(g, a, Var(r0)).Xor(Sign(r0)).And(Kleene(g, a, Var(r1)).Xor(Sign(r1)));
    }
  }

  lemma {:induction false} KleeneMonotone(g: Circuit, a: seq<LB>, b: seq<LB>, v: nat)
    requires v < |g.nodes| == |a| && AllBelow(a, b)
    ensures Kleene(g, a, v).Below(Kleene(g, b, v))
  {
    match g.nodes[v]
    case And(r0, r1) =>
      KleeneMonotone(g, a, b, Var(r0));
      KleeneMonotone(g, a, b, Var(r1));
    case _ => assert a[v].Below(b[v]);
  }

  lemma SettleMonotone(g: Circuit, a: seq<LB>, b: seq<LB>)
    requires |a| == |g.nodes| && AllBelow(a, b)
    ensures AllBelow(Settle(g, a), Settle(g, b))
  {
    forall v | 0 <= v < |a| ensures Settle(g, a)[v].Below(Settle(g, b)[v]) {
      KleeneMonotone(g, a, b, v);
    }
  }

  /** The leaf values of a three-valued latch and input assignment; the constant is false, gates start undefined. */
  function Leaves(g: Circuit, ls: seq<LB>, xs: seq<LB>): (a: seq<LB>)
    requires |ls| == |g.latches| && |xs| == |g.inputs|
    ensures |a| == |g.nodes|
  {
    seq(|g.nodes|, v requires 0 <= v < |g.nodes| =>
      match g.nodes[v]
      case Const => LFalse
      case Input(i) => if i < |xs| then xs[i] else LUndef
      case Latch(i) => if i < |ls| then ls[i] else LUndef
      case And(_, _) => LUndef)
  }

  function Lift(bs: seq<bool>): (ls: seq<LB>)
    ensures |ls| == |bs|
    ensures forall i :: 0 <= i < |bs| ==> ls[i] == FromBool(bs[i])
  {
    seq(|bs|, i requires 0 <= i < |bs| => FromBool(bs[i]))
  }

  /** Ternary simulation is sound: a defined Kleene value is the value under every completion of the latches and inputs. */
  lemma {:induction false} KleeneSound(g: Circuit, ls: seq<LB>, xs: seq<LB>, s: State, x: seq<bool>, v: nat)
    requires |ls| == |s| == |g.latches| && |xs| == |x| == |g.inputs| && v < |g.nodes|
    requires AllBelow(ls, Lift(s)) && AllBelow(xs, Lift(x))
    ensures Kleene(g, Leaves(g, ls, xs), v).Below(FromBool(Eval(g, v, s, x)))
  {
    match g.nodes[v]
    case And(r0, r1) =>
      KleeneSound(g, ls, xs, s, x, Var(r0));
      KleeneSound(g, ls, xs, s, x, Var(r1));
    case Input(i) => assert v != 0; assert i < |xs|; assert xs[i].Below(Lift(x)[i]);
    case Latch(i) => assert v != 0; assert i < |ls|; assert ls[i].Below(Lift(s)[i]);
    case Const =>
  }
}
