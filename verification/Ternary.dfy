/** Event-driven ternary simulation: shrinks a cube of latch values while a set of variables keeps its value. */
module TernarySimulation {
  import opened Lbools
  import opened Aigs

  // ---------- the worklist invariant ----------

  /** `u` waits in the queue, and `o` does not wait at or behind it. */
  ghost predicate After(q: seq<nat>, u: nat, o: nat) {
    exists k :: 0 <= k < |q| && q[k] == u && o !in q[k..]
  }

  /** Fan-in `u` will still cause `o` to be recomputed: it differs from the target itself, it is queued behind
      `o`, or it is the node `cur` being processed and `o` is among the fan-outs `rest` yet to visit. */
  ghost predicate Reason(a: seq<LB>, t: seq<LB>, q: seq<nat>, cur: nat, rest: seq<nat>, u: nat, o: nat)
    requires u < |a| == |t|
  {
    || a[u] != t[u]
    || After(q, u, o)
    || (u == cur && o !in q && o in rest)
  }

  /** Every gate that differs from the target `t` has a fan-in that accounts for it. */
  ghost predicate Accounted(g: Circuit, a: seq<LB>, t: seq<LB>, q: seq<nat>, cur: nat, rest: seq<nat>)
    requires |a| == |t| == |g.nodes|
  {
    forall o :: IsGate(g, o) && a[o] != t[o] ==>
      || Reason(a, t, q, cur, rest, Var(g.nodes[o].rhs0), o)
      || Reason(a, t, q, cur, rest, Var(g.nodes[o].rhs1), o)
  }

  ghost predicate Fanin(g: Circuit, u: nat, o: nat) {
    IsGate(g, o) && (Var(g.nodes[o].rhs0) == u || Var(g.nodes[o].rhs1) == u)
  }

  ghost predicate Distinct(q: seq<nat>) {
    forall j, k :: 0 <= j < k < |q| ==> q[j] != q[k]
  }

  lemma StartAccounted(g: Circuit, a: seq<LB>, input: nat, value: LB)
    requires Consistent(g, a) && input < |a| && !g.nodes[input].And?
    ensures Accounted(g, a[input := value], Settle(g, a[input := value]), [input], 0, [])
  {
    var b := a[input := value];
    var t := Settle(g, b);
    SettleConsistent(g, b);
    forall o | IsGate(g, o) && b[o] != t[o]
      ensures Reason(b, t, [input], 0, [], Var(g.nodes[o].rhs0), o)
           || Reason(b, t, [input], 0, [], Var(g.nodes[o].rhs1), o)
    {
      assert a[o] == GateOf(g, a, o) && t[o] == GateOf(g, t, o);
      assert [input][0] == input && o !in [input][0..];
    }
  }

  /** Taking the head of the queue leaves its gates to its fan-out list. */
  lemma DequeueAccounted(g: Circuit, a: seq<LB>, t: seq<LB>, q: seq<nat>, rest: seq<nat>)
    requires |a| == |t| == |g.nodes| && |q| > 0
    requires Accounted(g, a, t, q, 0, [])
    requires forall o :: Fanin(g, q[0], o) ==> o in rest
    ensures Accounted(g, a, t, q[1..], q[0], rest)
  {
    forall o | IsGate(g, o) && a[o] != t[o]
      ensures Reason(a, t, q[1..], q[0], rest, Var(g.nodes[o].rhs0), o)
           || Reason(a, t, q[1..], q[0], rest, Var(g.nodes[o].rhs1), o)
    {
      var u := Var(g.nodes[o].rhs0);
      if !Reason(a, t, q, 0, [], u, o) { u := Var(g.nodes[o].rhs1); }
      if a[u] == t[u] {
        assert After(q, u, o);
        var k :| 0 <= k < |q| && q[k] == u && o !in q[k..];
        if k == 0 {
          assert Fanin(g, q[0], o);
          assert forall x :: x in q[1..] ==> x in q[0..];
        } else {
          assert q[1..][k - 1] == u && q[1..][k - 1..] == q[k..];
        }
      }
    }
  }

  /** A fan-out that already waits can be skipped. */
  lemma SkipAccounted(g: Circuit, a: seq<LB>, t: seq<LB>, q: seq<nat>, cur: nat, rest: seq<nat>)
    requires |a| == |t| == |g.nodes| && |rest| > 0 && rest[0] in q
    requires Accounted(g, a, t, q, cur, rest)
    ensures Accounted(g, a, t, q, cur, rest[1..])
  {
    forall o: nat, u: nat | IsGate(g, o) && u < |a| && Reason(a, t, q, cur, rest, u, o)
      ensures Reason(a, t, q, cur, rest[1..], u, o)
    {
      assert o in rest && o != rest[0] ==> o in rest[1..];
    }
  }

  /** Recomputing a fan-out that does not wait, and queueing it when it changed, keeps every gate accounted for. */
  lemma RecomputeAccounted(g: Circuit, a: seq<LB>, t: seq<LB>, q: seq<nat>, cur: nat, rest: seq<nat>)
    requires |a| == |t| == |g.nodes| && |rest| > 0 && IsGate(g, rest[0]) && rest[0] !in q
    requires Consistent(g, t)
    requires Accounted(g, a, t, q, cur, rest)
    ensures var x := rest[0]; var v := GateOf(g, a, x);
            Accounted(g, a[x := v], t, if v == a[x] then q else q + [x], cur, rest[1..])
  {
    var x := rest[0];
    var v := GateOf(g, a, x);
    var b := a[x := v];
    var q' := if v == a[x] then q else q + [x];
    assert t[x] == GateOf(g, t, x);
    forall o | IsGate(g, o) && b[o] != t[o]
      ensures Reason(b, t, q', cur, rest[1..], Var(g.nodes[o].rhs0), o)
           || Reason(b, t, q', cur, rest[1..], Var(g.nodes[o].rhs1), o)
    {
      if o == x {
        assert b[Var(g.nodes[x].rhs0)] == a[Var(g.nodes[x].rhs0)] && b[Var(g.nodes[x].rhs1)] == a[Var(g.nodes[x].rhs1)];
      } else {
        var u := Var(g.nodes[o].rhs0);
        if !Reason(a, t, q, cur, rest, u, o) { u := Var(g.nodes[o].rhs1); }
        if a[u] != t[u] && b[u] == t[u] {
          assert u == x && q'[|q|] == u && o !in q'[|q|..];
        } else if After(q, u, o) {
          var k :| 0 <= k < |q| && q[k] == u && o !in q[k..];
          assert q'[k] == u && q'[k..] == if v == a[x] then q[k..] else q[k..] + [x];
          assert After(q', u, o);
        } else {
          assert o in rest && o != rest[0] ==> o in rest[1..];
        }
      }
    }
  }

  lemma AccountedWithoutRest(g: Circuit, a: seq<LB>, t: seq<LB>, q: seq<nat>, cur: nat, rest: seq<nat>)
    requires |a| == |t| == |g.nodes| && rest == []
    requires Accounted(g, a, t, q, cur, rest)
    ensures Accounted(g, a, t, q, 0, [])
  {
    forall o: nat, u: nat | IsGate(g, o) && u < |a| && Reason(a, t, q, cur, rest, u, o)
      ensures Reason(a, t, q, 0, [], u, o) {}
  }

  /** With an empty queue nothing differs: the first differing gate would have a differing fan-in. */
  lemma {:induction false} EmptyQueueSettled(g: Circuit, a: seq<LB>, t: seq<LB>, cur: nat, v: nat)
    requires SameLeaves(g, a, t) && v < |g.nodes|
    requires Accounted(g, a, t, [], cur, [])
    ensures a[v] == t[v]
  {
    match g.nodes[v]
    case And(r0, r1) =>
      EmptyQueueSettled(g, a, t, cur, Var(r0));
      EmptyQueueSettled(g, a, t, cur, Var(r1));
      assert IsGate(g, v);
    case _ =>
  }

  // ---------- lowering one leaf ----------

  /** During a trial that lowers one leaf, values lie between the target and the start and every gate is at
      least the conjunction of its fan-ins. */
  ghost predicate Lowering(g: Circuit, start: seq<LB>, a: seq<LB>, t: seq<LB>)
    requires |start| == |a| == |t| == |g.nodes|
  {
    && AllBelow(t, a) && AllBelow(a, start)
    && forall o :: IsGate(g, o) ==> GateOf(g, a, o).Below(a[o])
  }

  lemma LoweringStarts(g: Circuit, start: seq<LB>, input: nat)
    requires Consistent(g, start) && input < |start| && !g.nodes[input].And?
    ensures var a := start[input := LUndef]; Lowering(g, start, a, Settle(g, a))
  {
    var a := start[input := LUndef];
    assert AllBelow(a, start);
    SettleMonotone(g, a, start);
    SettleUnique(g, start, start);
    var t := Settle(g, a);
    forall v | 0 <= v < |a| ensures t[v].Below(a[v]) {
      assert t[v].Below(start[v]);
      if v == input { SettleConsistent(g, a); }
    }
    forall o | IsGate(g, o) ensures GateOf(g, a, o).Below(a[o]) {
      GateMonotone(a, start, g.nodes[o].rhs0, g.nodes[o].rhs1);
      assert start[o] == GateOf(g, start, o);
    }
  }

  lemma LoweringStep(g: Circuit, start: seq<LB>, a: seq<LB>, t: seq<LB>, x: nat)
    requires |start| == |a| == |t| == |g.nodes| && IsGate(g, x)
    requires Lowering(g, start, a, t) && Consistent(g, t)
    ensures Lowering(g, start, a[x := GateOf(g, a, x)], t)
    ensures GateOf(g, a, x) != a[x] ==> t[x] != start[x]
  {
    var b := a[x := GateOf(g, a, x)];
    GateMonotone(t, a, g.nodes[x].rhs0, g.nodes[x].rhs1);
    assert t[x] == GateOf(g, t, x);
    assert AllBelow(b, a);
    forall o | IsGate(g, o) ensures GateOf(g, b, o).Below(b[o]) {
      GateMonotone(b, a, g.nodes[o].rhs0, g.nodes[o].rhs1);
    }
    forall v | 0 <= v < |b| ensures b[v].Below(start[v]) {
      assert b[v].Below(a[v]) && a[v].Below(start[v]);
    }
  }

  /** Undoing a half-finished trial can start from the changed leaf alone. */
  lemma RollbackAccounted(g: Circuit, start: seq<LB>, a: seq<LB>, t: seq<LB>, input: nat)
    requires |a| == |t| == |g.nodes| && Consistent(g, start) && Lowering(g, start, a, t)
    requires input < |a| && !g.nodes[input].And?
    ensures Accounted(g, a[input := start[input]], start, [input], 0, [])
  {
    var b := a[input := start[input]];
    forall o | IsGate(g, o) && b[o] != start[o]
      ensures Reason(b, start, [input], 0, [], Var(g.nodes[o].rhs0), o)
           || Reason(b, start, [input], 0, [], Var(g.nodes[o].rhs1), o)
    {
      assert start[o] == GateOf(g, start, o) && GateOf(g, a, o).Below(a[o]) && a[o].Below(start[o]);
      assert [input][0] == input && o !in [input][0..];
    }
  }

  /** What a run of the worklist keeps besides the queue: leaves are those of the target, and in a trial values
      only sink. */
  ghost predicate Progress(g: Circuit, start: seq<LB>, a: seq<LB>, t: seq<LB>, trial: bool)
    requires |start| == |g.nodes|
  {
    && SameLeaves(g, a, t)
    && (trial ==> Lowering(g, start, a, t))
  }

  ghost predicate AreFanouts(g: Circuit, fanouts: seq<seq<nat>>) {
    && |fanouts| == |g.nodes|
    && forall v, o {:trigger o in fanouts[v]} :: 0 <= v < |fanouts| ==> (o in fanouts[v] <==> Fanin(g, v, o))
  }

  // ---------- termination ----------

  /** The pending set read as a binary number whose most significant digit is variable 0. */
  ghost function Weight(seen: seq<bool>): nat {
    if seen == [] then 0 else (if seen[0] then Pow2(|seen| - 1) else 0) + Weight(seen[1..])
  }

  lemma {:induction false} WeightBound(s: seq<bool>)
    ensures Weight(s) < Pow2(|s|)
  {
    if s != [] { WeightBound(s[1..]); }
  }

  /** Clearing a digit outweighs setting any less significant ones. */
  lemma {:induction false} WeightDrops(before: seq<bool>, after: seq<bool>, v: nat)
    requires |before| == |after| && v < |before| && before[v] && !after[v]
    requires forall u :: 0 <= u < v ==> before[u] == after[u]
    ensures Weight(after) < Weight(before)
  {
    if v == 0 {
      WeightBound(after[1..]);
    } else {
      assert before[0] == after[0];
      WeightDrops(before[1..], after[1..], v - 1);
    }
  }

  // ---------- the simulator ----------

  /** `seen` marks exactly the waiting variables, each of which waits once. */
  ghost predicate Marks(seen: seq<bool>, q: seq<nat>) {
    && Distinct(q)
    && (forall u :: u in q ==> u < |seen|)
    && forall u :: 0 <= u < |seen| ==> (seen[u] <==> u in q)
  }

  lemma AppendSlice(s: seq<nat>, i: nat, x: nat)
    requires i <= |s|
    ensures (s + [x])[i..] == s[i..] + [x]
  {
  }

  lemma PopMarks(seen: seq<bool>, q: seq<nat>)
    requires Marks(seen, q) && |q| > 0
    ensures q[0] < |seen| && seen[q[0]] && Marks(seen[q[0] := false], q[1..])
  {
    assert q[0] in q;
    forall u ensures u in q[1..] <==> u in q && u != q[0] {
      if u in q[1..] {
        var k :| 0 <= k < |q| - 1 && q[1..][k] == u;
        assert q[k + 1] == u;
      }
    }
  }

  lemma PushMarks(seen: seq<bool>, q: seq<nat>, o: nat)
    requires Marks(seen, q) && o < |seen| && !seen[o]
    ensures Marks(seen[o := true], q + [o])
  {
  }

  ghost predicate NothingPreserved(p: seq<bool>) {
    forall k :: 0 <= k < |p| ==> !p[k]
  }

  /** The variables in `p` have the same value in `a` and `b`. */
  ghost predicate Agree(p: seq<bool>, a: seq<LB>, b: seq<LB>) {
    forall k :: 0 <= k < |p| && k < |a| && k < |b| && p[k] ==> a[k] == b[k]
  }

  // ---------- what a reduction keeps ----------

  lemma SettleSameLeaves(g: Circuit, a: seq<LB>, b: seq<LB>)
    requires SameLeaves(g, a, b)
    ensures Settle(g, a) == Settle(g, b)
  {
    SettleConsistent(g, a);
    SettleUnique(g, Settle(g, a), b);
  }

  ghost function Settled(g: Circuit, ls: seq<LB>, xs: seq<LB>): (a: seq<LB>)
    requires |ls| == |g.latches| && |xs| == |g.inputs|
    ensures |a| == |g.nodes|
  {
    Settle(g, Leaves(g, ls, xs))
  }

  /** Lowering latch `i` as well would change a preserved variable. */
  ghost predicate Necessary(g: Circuit, ls: seq<LB>, xs: seq<LB>, p: seq<bool>, start: seq<LB>, i: nat)
    requires i < |ls| == |g.latches| && |xs| == |g.inputs| && |p| == |start| == |g.nodes|
  {
    || p[Var(g.latches[i].lit)]
    || !Agree(p, Settled(g, ls[i := LUndef], xs), start)
  }

  /** What is left of the latch values when the latches `order` are tried one after the other, each one given up unless it
      is needed at that time. */
  ghost function GiveUp(g: Circuit, ls: seq<LB>, xs: seq<LB>, p: seq<bool>, order: seq<nat>): (r: seq<LB>)
    requires |ls| == |g.latches| && |xs| == |g.inputs| && |p| == |g.nodes|
    ensures |r| == |ls|
  {
    if order == [] then ls
    else
      var n := |order| - 1;
      var r := GiveUp(g, ls, xs, p, order[..n]);
      if order[n] >= |r| || Necessary(g, r, xs, p, Settled(g, ls, xs), order[n]) then r else r[order[n] := LUndef]
  }

  /** Of the first `n` latches the defined ones that have a priority, or those that have none. */
  function Picks(ls: seq<LB>, priority: seq<nat>, n: nat, high: bool): seq<nat>
    requires n <= |ls| == |priority|
  {
    if n == 0 then []
    else Picks(ls, priority, n - 1, high) + (if ls[n - 1] != LUndef && (priority[n - 1] > 0) == high then [n - 1] else [])
  }

  /** The defined latches, those with a priority first. */
  function TryOrder(ls: seq<LB>, priority: seq<nat>): seq<nat>
    requires |ls| == |priority|
  {
    Picks(ls, priority, |ls|, true) + Picks(ls, priority, |ls|, false)
  }

  lemma {:induction false} PicksMember(ls: seq<LB>, priority: seq<nat>, n: nat, i: nat, high: bool)
    requires n <= |ls| == |priority|
    ensures i in Picks(ls, priority, n, high) <==> i < n && ls[i] != LUndef && (priority[i] > 0) == high
  {
    if n > 0 { PicksMember(ls, priority, n - 1, i, high); }
  }

  /** The variables of the literals `toPreserve`. */
  ghost function PreserveMarks(g: Circuit, toPreserve: seq<nat>): seq<bool> {
    seq(|g.nodes|, v requires 0 <= v < |g.nodes| => exists l :: l in toPreserve && Var(l) == v)
  }

  lemma GiveUpNext(g: Circuit, ls: seq<LB>, xs: seq<LB>, p: seq<bool>, order: seq<nat>, i: nat, next: seq<LB>)
    requires |ls| == |g.latches| && |xs| == |g.inputs| && |p| == |g.nodes| && i < |ls|
    requires var r := GiveUp(g, ls, xs, p, order);
             next == if Necessary(g, r, xs, p, Settled(g, ls, xs), i) then r else r[i := LUndef]
    ensures next == GiveUp(g, ls, xs, p, order + [i])
  {
    assert (order + [i])[..|order|] == order;
  }

  lemma SettledMonotone(g: Circuit, ls: seq<LB>, ms: seq<LB>, xs: seq<LB>)
    requires |ls| == |g.latches| && |xs| == |g.inputs| && AllBelow(ls, ms)
    ensures AllBelow(Settled(g, ls, xs), Settled(g, ms, xs))
  {
    var a, b := Leaves(g, ls, xs), Leaves(g, ms, xs);
    forall v | 0 <= v < |a| ensures a[v].Below(b[v]) {
      match g.nodes[v]
      case Latch(i) => assert ls[i].Below(ms[i]);
      case _ =>
    }
    SettleMonotone(g, a, b);
  }

  /** A latch that could not be given up stays necessary when other latches are given up later. */
  lemma NecessaryStays(g: Circuit, ls: seq<LB>, ms: seq<LB>, top: seq<LB>, xs: seq<LB>, p: seq<bool>, i: nat)
    requires i < |ls| == |g.latches| && |xs| == |g.inputs| && |p| == |g.nodes|
    requires AllBelow(ms, ls) && AllBelow(ls, top)
    requires Necessary(g, ls, xs, p, Settled(g, top, xs), i)
    ensures Necessary(g, ms, xs, p, Settled(g, top, xs), i)
  {
    var l', m' := ls[i := LUndef], ms[i := LUndef];
    assert AllBelow(l', top) by { forall k | 0 <= k < |ls| ensures l'[k].Below(top[k]) { assert ls[k].Below(top[k]); } }
    assert AllBelow(m', l') by { forall k | 0 <= k < |ls| ensures m'[k].Below(l'[k]) { assert ms[k].Below(ls[k]); } }
    SettledMonotone(g, l', top, xs);
    SettledMonotone(g, m', l', xs);
    if !p[Var(g.latches[i].lit)] {
      var k :| 0 <= k < |p| && p[k] && Settled(g, l', xs)[k] != Settled(g, top, xs)[k];
      assert Settled(g, m', xs)[k].Below(Settled(g, l', xs)[k]);
      assert Settled(g, l', xs)[k].Below(Settled(g, top, xs)[k]);
    }
  }

  /** The value of every literal that a reduction preserves is unchanged, for all completions of the latches the
      reduction gave up: this is what lets the shrunken cube stand for all its states. */
  lemma ReducedCubeForces(g: Circuit, ls: seq<LB>, rs: seq<LB>, xs: seq<LB>, l: nat, s: State, x: seq<bool>)
    requires |ls| == |rs| == |s| == |g.latches| && |xs| == |x| == |g.inputs| && Var(l) < |g.nodes|
    requires Settled(g, rs, xs)[Var(l)] == Settled(g, ls, xs)[Var(l)]
    requires AllBelow(rs, Lift(s)) && AllBelow(xs, Lift(x))
    ensures LitVal(Settled(g, ls, xs), l).Below(FromBool(EvalLit(g, l, s, x)))
  {
    KleeneSound(g, rs, xs, s, x, Var(l));
  }

  class Ternary {
    const aig: Circuit
    const fanouts: seq<seq<nat>>
    var assigns: seq<LB>
    var toUpdate: seq<nat>
    var seen: seq<bool>
    var preserve: seq<bool>

    ghost predicate Valid()
      reads this`assigns
    {
      |assigns| == |aig.nodes| && AreFanouts(aig, fanouts)
    }

    constructor (g: Circuit)
      ensures Valid() && aig == g
    {
      aig := g;
      assigns, toUpdate, seen := seq(|g.nodes|, _ => LUndef), [], [];
      preserve := seq(|g.nodes|, _ => false);
      var lists: seq<seq<nat>> := seq(|g.nodes|, _ => []);
      for v := 0 to |g.nodes|
        invariant |lists| == |g.nodes|
        invariant forall u: nat, o: nat {:trigger o in lists[u]} :: u < |lists| ==>
                    (o in lists[u] <==> o < v && Fanin(g, u, o))
      {
        if g.nodes[v].And? {
          var u0, u1 := Var(g.nodes[v].rhs0), Var(g.nodes[v].rhs1);
          ghost var before := lists;
          lists := lists[u0 := lists[u0] + [v]];
          lists := lists[u1 := lists[u1] + [v]];
          forall u: nat, o: nat | u < |lists|
            ensures o in lists[u] <==> o < v + 1 && Fanin(g, u, o)
          {
            assert o in lists[u] <==> o in before[u] || (o == v && (u == u0 || u == u1));
          }
        }
      }
      fanouts := lists;
    }

    /** Recomputes one gate from its fan-ins. */
    method Propagate(v: nat) returns (changed: bool)
      requires |assigns| == |aig.nodes| && v < |aig.nodes|
      modifies this`assigns
      ensures |assigns| == |aig.nodes| && changed == (assigns != old(assigns))
      ensures assigns == if IsGate(aig, v) then old(assigns)[v := GateOf(aig, old(assigns), v)] else old(assigns)
      ensures IsGate(aig, v) ==> changed == (old(assigns)[v] != GateOf(aig, old(assigns), v))
    {
      match aig.nodes[v] {
        case And(r0, r1) =>
          var cur := assigns[v];
          var assign0 := assigns[Var(r0)].Xor(Sign(r0));
          var assign1 := assigns[Var(r1)].Xor(Sign(r1));
          ghost var before := assigns;
          assigns := assigns[v := assign0.And(assign1)];
          changed := assigns[v] != cur;
          assert changed ==> assigns[v] != before[v];
          assert !changed ==> assigns == before;
        case _ =>
          changed := false;
      }
    }

    /** One fan-out `o` of the node `v` being processed: recomputed and queued unless it waits already; the visit
        stops with a rejection when a preserved variable moves. The worklist proper starts at position `i`. */
    method Visit(o: nat, i: nat, pres: seq<bool>, ghost start: seq<LB>, ghost t: seq<LB>, ghost trial: bool,
                 ghost v: nat, ghost rest: seq<nat>)
      returns (rejected: bool)
      requires Valid() && |seen| == |pres| == |start| == |t| == |aig.nodes| && Consistent(aig, t)
      requires IsGate(aig, o) && |rest| > 0 && rest[0] == o && (trial || NothingPreserved(pres))
      requires i <= |toUpdate| && Working(toUpdate[i..], pres, start, t, trial, v, rest)
      modifies this`assigns, this`toUpdate, this`seen
      ensures Valid() && |seen| == |aig.nodes| && i <= |toUpdate|
      ensures seen == old(seen)[o := seen[o]]
      ensures Progress(aig, start, assigns, t, trial)
      ensures rejected ==> trial && pres[o] && t[o] != start[o]
      ensures !rejected ==> Working(toUpdate[i..], pres, start, t, trial, v, rest[1..])
    {
      ghost var q := toUpdate[i..];
      if !seen[o] {
        RecomputeAccounted(aig, assigns, t, q, v, rest);
        if trial { LoweringStep(aig, start, assigns, t, o); }
        var changed := Propagate(o);
        if changed {
          PushMarks(seen, q, o);
          seen := seen[o := true];
          if pres[o] {
            return true;
          }
          AppendSlice(toUpdate, i, o);
          toUpdate := toUpdate + [o];
        }
      } else {
        SkipAccounted(aig, assigns, t, q, v, rest);
      }
      return false;
    }

    /** The invariant of the worklist `q` while the fan-outs `rest` of `v` are still to visit. */
    ghost predicate Working(q: seq<nat>, pres: seq<bool>, start: seq<LB>, t: seq<LB>, trial: bool, v: nat, rest: seq<nat>)
      reads this`assigns, this`seen
      requires |assigns| == |start| == |t| == |aig.nodes|
    {
      && Progress(aig, start, assigns, t, trial)
      && Agree(pres, assigns, start)
      && Marks(seen, q)
      && Accounted(aig, assigns, t, q, v, rest)
    }

    /** Takes `v` from position `i` of the worklist and visits its fan-outs. */
    method Spread(v: nat, i: nat, pres: seq<bool>, ghost start: seq<LB>, ghost t: seq<LB>, ghost trial: bool)
      returns (rejected: bool)
      requires Valid() && |seen| == |pres| == |start| == |t| == |aig.nodes| && Consistent(aig, t)
      requires i < |toUpdate| && toUpdate[i] == v && (trial || NothingPreserved(pres))
      requires Working(toUpdate[i..], pres, start, t, trial, 0, [])
      modifies this`assigns, this`toUpdate, this`seen
      ensures Valid() && |seen| == |aig.nodes| && Progress(aig, start, assigns, t, trial)
      ensures rejected ==> trial && exists o :: 0 <= o < |pres| && pres[o] && t[o] != start[o]
      ensures !rejected ==>
        && i < |toUpdate| && Working(toUpdate[i + 1..], pres, start, t, trial, 0, [])
        && Weight(seen) < Weight(old(seen))
    {
      ghost var q, before := toUpdate[i..], seen;
      assert q[0] == v && q[1..] == toUpdate[i + 1..];
      PopMarks(seen, q);
      seen := seen[v := false];
      var fanout := fanouts[v];
      DequeueAccounted(aig, assigns, t, q, fanout);
      assert fanout[0..] == fanout;
      for j := 0 to |fanout|
        invariant i < |toUpdate| && Valid() && |seen| == |before|
        invariant Working(toUpdate[i + 1..], pres, start, t, trial, v, fanout[j..])
        invariant !seen[v] && forall u :: 0 <= u < v ==> seen[u] == before[u]
      {
        var o := fanout[j];
        assert fanout[j..][0] == o && fanout[j..][1..] == fanout[j + 1..];
        assert Fanin(aig, v, o) by { assert o in fanouts[v]; }
        rejected := Visit(o, i + 1, pres, start, t, trial, v, fanout[j..]);
        if rejected {
          return;
        }
      }
      WeightDrops(before, seen, v);
      AccountedWithoutRest(aig, assigns, t, toUpdate[i + 1..], v, fanout[|fanout|..]);
      return false;
    }

    /** Gives leaf `input` the value `assign` and propagates the change. The trial succeeds exactly when neither
        the leaf nor any settled value of a preserved variable would change; a failed trial leaves no trace. */
    method Simulate(input: nat, assign: LB, pres: seq<bool>) returns (ok: bool)
      requires Valid() && input < |aig.nodes| == |pres| && !aig.nodes[input].And?
      requires
        || (Consistent(aig, assigns) && (assign == LUndef || NothingPreserved(pres)))
        || (NothingPreserved(pres) && assigns[input] != assign
            && Accounted(aig, assigns[input := assign], Settle(aig, assigns[input := assign]), [input], 0, []))
      modifies this`assigns, this`toUpdate, this`seen
      ensures Valid()
      ensures ok <==> !pres[input] && Agree(pres, Settle(aig, old(assigns)[input := assign]), old(assigns))
      ensures assigns == if ok then Settle(aig, old(assigns)[input := assign]) else old(assigns)
      decreases if NothingPreserved(pres) then 0 else 1
    {
      hide Weight, Accounted, Settle;
      seen := seq(|aig.nodes|, _ => false);
      toUpdate := [input];
      if pres[input] {
        return false;
      }
      seen := seen[input := true];
      var oldAssign := assigns[input];
      if oldAssign == assign {
        assert assigns[input := assign] == assigns;
        SettleUnique(aig, assigns, assigns);
        return true;
      }
      ghost var start := assigns;
      ghost var trial := Consistent(aig, start) && assign == LUndef;
      assigns := assigns[input := assign];
      ghost var t := Settle(aig, assigns);
      SettleConsistent(aig, assigns);
      if Consistent(aig, start) { StartAccounted(aig, start, input, assign); }
      if trial { LoweringStarts(aig, start, input); }

      var i := 0;
      while i < |toUpdate|
        invariant 0 <= i <= |toUpdate| && Valid() && |seen| == |aig.nodes|
        invariant Working(toUpdate[i..], pres, start, t, trial, 0, [])
        decreases Weight(seen)
      {
        var v := toUpdate[i];
        var rejected := Spread(v, i, pres, start, t, trial);
        i := i + 1;
        if rejected {
          RollbackAccounted(aig, start, assigns, t, input);
          SettleUnique(aig, start, assigns[input := oldAssign]);
          var r := Simulate(input, oldAssign, seq(|aig.nodes|, _ => false));
          return false;
        }
      }
      forall u | 0 <= u < |assigns| ensures assigns[u] == t[u] {
        assert toUpdate[i..] == [];
        EmptyQueueSettled(aig, assigns, t, 0, u);
      }
      return true;
    }

    /** Loads the leaves: the constant, the given latch values and the given inputs. */
    method Load(latches: seq<LB>, inputs: seq<LB>)
      requires Valid() && |latches| == |aig.latches| && |inputs| == |aig.inputs|
      modifies this`assigns
      ensures Valid() && SameLeaves(aig, assigns, Leaves(aig, latches, inputs))
    {
      assigns := seq(|assigns|, _ => LUndef);
      assigns := assigns[0 := LFalse];
      for i := 0 to |latches|
        invariant Valid() && assigns[0] == LFalse
        invariant forall v {:trigger assigns[v]} :: 0 <= v < |assigns| && aig.nodes[v].Latch? && aig.nodes[v].idx < i
                    ==> assigns[v] == latches[aig.nodes[v].idx]
      {
        assigns := assigns[Var(aig.latches[i].lit) := latches[i]];
      }
      for i := 0 to |inputs|
        invariant Valid() && assigns[0] == LFalse
        invariant forall v {:trigger assigns[v]} :: 0 <= v < |assigns| && aig.nodes[v].Latch?
                    ==> assigns[v] == latches[aig.nodes[v].idx]
        invariant forall v {:trigger assigns[v]} :: 0 <= v < |assigns| && aig.nodes[v].Input? && aig.nodes[v].idx < i
                    ==> assigns[v] == inputs[aig.nodes[v].idx]
      {
        assigns := assigns[Var(aig.inputs[i]) := inputs[i]];
      }
    }

    /** One pass in variable order settles every gate. */
    method Sweep()
      requires Valid()
      modifies this`assigns
      ensures Valid() && assigns == Settle(aig, old(assigns))
    {
      ghost var a, t := assigns, Settle(aig, assigns);
      SettleConsistent(aig, a);
      for v := 0 to |aig.nodes|
        invariant Valid() && SameLeaves(aig, assigns, a)
        invariant forall u :: 0 <= u < v ==> assigns[u] == t[u]
      {
        if aig.nodes[v].And? {
          assert IsGate(aig, v) && GateOf(aig, assigns, v) == GateOf(aig, t, v);
        }
        var _ := Propagate(v);
      }
    }

    /** What holds between trials: the simulator shows the settled values of the latches `cur` that are left, and
        every preserved variable still has its first value. */
    ghost predicate Reducing(cur: seq<LB>, latches: seq<LB>, inputs: seq<LB>)
      reads this`assigns, this`preserve
      requires |latches| == |aig.latches| && |inputs| == |aig.inputs|
    {
      && Valid() && |preserve| == |aig.nodes| && AllBelow(cur, latches)
      && assigns == Settled(aig, cur, inputs)
      && Agree(preserve, assigns, Settled(aig, latches, inputs))
    }

    /** The latches `tried` have been tried in that order, and each of them is given up or necessary. */
    ghost predicate Tried(tried: seq<nat>, cur: seq<LB>, latches: seq<LB>, inputs: seq<LB>)
      reads this`preserve
      requires |cur| == |latches| == |aig.latches| && |inputs| == |aig.inputs| && |preserve| == |aig.nodes|
    {
      && cur == GiveUp(aig, latches, inputs, preserve, tried)
      && forall i :: i in tried && i < |cur| && cur[i] != LUndef ==>
           Necessary(aig, cur, inputs, preserve, Settled(aig, latches, inputs), i)
    }

    /** Tries to give up latch `i`. */
    method TryLatch(i: nat, ghost cur: seq<LB>, ghost latches: seq<LB>, ghost inputs: seq<LB>, ghost tried: seq<nat>)
      returns (ghost next: seq<LB>)
      requires |latches| == |aig.latches| && |inputs| == |aig.inputs| && i < |latches|
      requires Reducing(cur, latches, inputs) && Tried(tried, cur, latches, inputs)
      modifies this`assigns, this`toUpdate, this`seen
      ensures Reducing(next, latches, inputs) && Tried(tried + [i], next, latches, inputs)
    {
      hide GiveUp;
      var v := Var(aig.latches[i].lit);
      ghost var start := Settled(aig, latches, inputs);
      SettleConsistent(aig, Leaves(aig, cur, inputs));
      ghost var lower := cur[i := LUndef];
      forall u | 0 <= u < |assigns| && !aig.nodes[u].And?
        ensures assigns[v := LUndef][u] == Leaves(aig, lower, inputs)[u]
      {
        assert assigns[u] == Leaves(aig, cur, inputs)[u];
      }
      SettleSameLeaves(aig, assigns[v := LUndef], Leaves(aig, lower, inputs));
      var ok := Simulate(v, LUndef, preserve);
      next := if ok then lower else cur;
      GiveUpNext(aig, latches, inputs, preserve, tried, i, next);
      assert AllBelow(lower, cur);
      forall k | k in tried + [i] && k < |cur| && next[k] != LUndef
        ensures Necessary(aig, next, inputs, preserve, start, k)
      {
        if k in tried { NecessaryStays(aig, cur, next, latches, inputs, preserve, k); }
      }
    }

    /** Tries the latches with a positive priority first, then the others. */
    method TryAll(latches: seq<LB>, ghost inputs: seq<LB>, priority: seq<nat>) returns (ghost cur: seq<LB>)
      requires |latches| == |priority| == |aig.latches| && |inputs| == |aig.inputs|
      requires Reducing(latches, latches, inputs)
      modifies this`assigns, this`toUpdate, this`seen
      ensures Reducing(cur, latches, inputs)
      ensures forall i :: 0 <= i < |cur| && cur[i] != LUndef ==>
                Necessary(aig, cur, inputs, preserve, Settled(aig, latches, inputs), i)
      ensures cur == GiveUp(aig, latches, inputs, preserve, TryOrder(latches, priority))
    {
      hide Necessary, Settled, Settle, Consistent, AreFanouts, Agree, GiveUp;
      cur := latches;
      ghost var tried: seq<nat> := [];
      StartTrying(latches, inputs);
      for i := 0 to |latches|
        invariant Reducing(cur, latches, inputs) && Tried(tried, cur, latches, inputs)
        invariant tried == Picks(latches, priority, i, true)
      {
        if latches[i] != LUndef && priority[i] > 0 {
          cur := TryLatch(i, cur, latches, inputs, tried);
          tried := tried + [i];
        }
      }
      ghost var first: seq<nat> := tried;
      for i := 0 to |latches|
        invariant Reducing(cur, latches, inputs) && Tried(tried, cur, latches, inputs)
        invariant tried == first + Picks(latches, priority, i, false)
      {
        if latches[i] != LUndef && priority[i] == 0 {
          cur := TryLatch(i, cur, latches, inputs, tried);
          tried := tried + [i];
        }
      }
      EndTrying(tried, cur, latches, inputs, priority);
    }

    lemma StartTrying(latches: seq<LB>, inputs: seq<LB>)
      requires |latches| == |aig.latches| && |inputs| == |aig.inputs| && |preserve| == |aig.nodes|
      ensures Tried([], latches, latches, inputs)
    {
    }

    lemma EndTrying(tried: seq<nat>, cur: seq<LB>, latches: seq<LB>, inputs: seq<LB>, priority: seq<nat>)
      requires |latches| == |priority| == |aig.latches| && |inputs| == |aig.inputs|
      requires Reducing(cur, latches, inputs) && Tried(tried, cur, latches, inputs) && tried == TryOrder(latches, priority)
      ensures forall i :: 0 <= i < |cur| && cur[i] != LUndef ==>
                Necessary(aig, cur, inputs, preserve, Settled(aig, latches, inputs), i)
    {
      hide Necessary, GiveUp, Settled;
      forall i | 0 <= i < |cur| && cur[i] != LUndef
        ensures Necessary(aig, cur, inputs, preserve, Settled(aig, latches, inputs), i)
      {
        assert cur[i].Below(latches[i]);
        PicksMember(latches, priority, |latches|, i, true);
        PicksMember(latches, priority, |latches|, i, false);
      }
    }

    method MarkPreserved(toPreserve: seq<nat>)
      requires forall l :: l in toPreserve ==> Var(l) < |aig.nodes|
      modifies this`preserve
      ensures |preserve| == |aig.nodes|
      ensures forall l :: l in toPreserve ==> preserve[Var(l)]
      ensures forall v :: 0 <= v < |preserve| && preserve[v] ==> exists l :: l in toPreserve && Var(l) == v
      ensures preserve == PreserveMarks(aig, toPreserve)
    {
      preserve := seq(|aig.nodes|, _ => false);
      for i := 0 to |toPreserve|
        invariant |preserve| == |aig.nodes|
        invariant forall l :: l in toPreserve[..i] ==> preserve[Var(l)]
        invariant forall v :: 0 <= v < |preserve| && preserve[v] ==> exists l :: l in toPreserve && Var(l) == v
      {
        assert toPreserve[i] in toPreserve;
        preserve := preserve[Var(toPreserve[i]) := true];
      }
      assert toPreserve[..|toPreserve|] == toPreserve;
    }

    /** Gives up latch values, high-priority latches first, keeping the value of every literal in `toPreserve`.
        The result is minimal: no latch value that is left can be given up. */
    method Reduce(latches: seq<LB>, inputs: seq<LB>, toPreserve: seq<nat>, priority: seq<nat>)
      returns (reduced: seq<LB>)
      requires Valid() && |latches| == |priority| == |aig.latches| && |inputs| == |aig.inputs|
      requires forall l :: l in toPreserve ==> Var(l) < |aig.nodes|
      modifies this
      ensures Valid() && AllBelow(reduced, latches)
      ensures forall l :: l in toPreserve ==>
                Settled(aig, reduced, inputs)[Var(l)] == Settled(aig, latches, inputs)[Var(l)]
      ensures forall i :: 0 <= i < |latches| && reduced[i] != LUndef ==>
                || (exists l :: l in toPreserve && Var(l) == Var(aig.latches[i].lit))
                || (exists l :: l in toPreserve &&
                      Settled(aig, reduced[i := LUndef], inputs)[Var(l)] != Settled(aig, latches, inputs)[Var(l)])
      ensures reduced == GiveUp(aig, latches, inputs, PreserveMarks(aig, toPreserve), TryOrder(latches, priority))
    {
      MarkPreserved(toPreserve);
      Load(latches, inputs);
      SettleSameLeaves(aig, assigns, Leaves(aig, latches, inputs));
      Sweep();
      ghost var cur := TryAll(latches, inputs, priority);
      SettleConsistent(aig, Leaves(aig, cur, inputs));
      reduced := latches;
      for i := 0 to |latches|
        invariant |reduced| == |latches| && forall k :: 0 <= k < i ==> reduced[k] == cur[k]
      {
        var v := Var(aig.latches[i].lit);
        assert assigns[v] == Leaves(aig, cur, inputs)[v];
        reduced := reduced[i := assigns[v]];
      }
      assert reduced == cur;
      forall i | 0 <= i < |latches| && reduced[i] != LUndef
        ensures Necessary(aig, reduced, inputs, preserve, Settled(aig, latches, inputs), i)
      {
        assert reduced[i] == cur[i];
      }
    }
  }
}
