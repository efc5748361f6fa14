/** The table of new literals: inputs first, then latches, then gates behind their fan-ins. */
module Renumbering {
  import opened DeltaCodec
  import opened Nets
  import opened DepthFirst

  /** The variables that keep the first numbers. */
  ghost function Sources(g: Net): seq<nat> {
    seq(|g.inputs| + |g.latches|, k requires 0 <= k < |g.inputs| + |g.latches| =>
      if k < |g.inputs| then Var(g.inputs[k]) else Var(g.latches[k - |g.inputs|].lit))
  }

  /** `code` maps the literals of `order` to consecutive new literals; the others have no code. */
  ghost predicate CodeTable(g: Net, code: seq<nat>, order: seq<nat>) {
    && |code| == 2 * (g.maxvar + 1) && code[0] == 0 && code[1] == 1
    && (forall k :: 0 <= k < |order| ==> 0 < order[k] <= g.maxvar && code[2 * order[k]] == 2 * k + 2 && code[2 * order[k] + 1] == 2 * k + 3)
    && forall v: nat :: 0 < v <= g.maxvar && v !in order ==> code[2 * v] == 0 && code[2 * v + 1] == 0
  }

  lemma OrderDistinct(g: Net, code: seq<nat>, order: seq<nat>)
    requires CodeTable(g, code, order)
    ensures forall j, k :: 0 <= j < k < |order| ==> order[j] != order[k]
  {
    forall j, k | 0 <= j < k < |order| ensures order[j] != order[k] { assert code[2 * order[j]] == 2 * j + 2 && code[2 * order[k]] == 2 * k + 2; }
  }

  /** A literal has a code exactly if its variable has been numbered; sign and order are those of the numbers. */
  lemma CodeOf(g: Net, code: seq<nat>, order: seq<nat>, l: nat)
    requires CodeTable(g, code, order) && Var(l) <= g.maxvar
    ensures l < |code| && (l < 2 ==> code[l] == l) && (l >= 2 ==> (code[l] != 0 <==> Var(l) in order))
    ensures forall k :: 0 <= k < |order| && order[k] == Var(l) ==> code[l] == 2 * k + 2 + l % 2
  {
    assert l == 2 * Var(l) || l == 2 * Var(l) + 1;
    if Var(l) in order {
      var k :| 0 <= k < |order| && order[k] == Var(l);
      assert code[2 * order[k]] == 2 * k + 2;
    }
  }

  lemma NewCode(g: Net, code: seq<nat>, order: seq<nat>, v: nat)
    requires CodeTable(g, code, order) && 0 < v <= g.maxvar && v !in order
    ensures CodeTable(g, code[2 * v := 2 * |order| + 2][2 * v + 1 := 2 * |order| + 3], order + [v])
  {
    var c, o := code[2 * v := 2 * |order| + 2][2 * v + 1 := 2 * |order| + 3], order + [v];
    assert forall w :: w in o <==> w in order || w == v;
    forall k | 0 <= k < |o| ensures 0 < o[k] <= g.maxvar && c[2 * o[k]] == 2 * k + 2 && c[2 * o[k] + 1] == 2 * k + 3 {
      if k < |order| { assert o[k] == order[k] && order[k] in order && o[k] != v; }
    }
    forall u: nat | 0 < u <= g.maxvar && u !in o ensures c[2 * u] == 0 && c[2 * u + 1] == 0 {
      assert u !in order && u != v;
    }
  }

  lemma EmptyTable(g: Net, code: seq<nat>)
    requires |code| == 2 * (g.maxvar + 1) && code[0] == 0 && code[1] == 1 && forall l :: 2 <= l < |code| ==> code[l] == 0
    ensures CodeTable(g, code, [])
  {
  }

  /** Inputs and latches are different positive variables. */
  lemma SourcesDistinct(g: Net)
    requires TypesOk(g)
    ensures forall k :: 0 <= k < |Sources(g)| ==> 0 < Sources(g)[k] <= g.maxvar && !IsAnd(g, Sources(g)[k])
    ensures forall j, k :: 0 <= j < k < |Sources(g)| ==> Sources(g)[j] != Sources(g)[k]
    ensures forall v: nat :: 0 < v <= g.maxvar && (g.types[v].input || g.types[v].latch) ==> v in Sources(g)
  {
    var p := Sources(g);
    forall k | 0 <= k < |p|
      ensures 0 < p[k] <= g.maxvar && !IsAnd(g, p[k])
      ensures if k < |g.inputs| then g.types[p[k]].input && g.types[p[k]].idx == k
              else g.types[p[k]].latch && g.types[p[k]].idx == k - |g.inputs|
    {
      if k < |g.inputs| { assert Place(g, g.inputs[k]); } else { assert Place(g, g.latches[k - |g.inputs|].lit); }
    }
    forall v: nat | 0 < v <= g.maxvar && (g.types[v].input || g.types[v].latch) ensures v in p {
      var k := if g.types[v].input then g.types[v].idx else |g.inputs| + g.types[v].idx;
      assert p[k] == v;
    }
  }

  /** The numbered variables: the sources, then finished gates. */
  ghost function Order(g: Net, done: seq<nat>): seq<nat> { Sources(g) + done }

  lemma KindsDisjoint(g: Net)
    requires TypesOk(g)
    ensures forall v: nat :: v < |g.types| && g.types[v].and ==> v != 0 && !g.types[v].input && !g.types[v].latch
  {
  }

  lemma GateNumbered(g: Net, code: seq<nat>, done: seq<nat>, v: nat)
    requires WellDefined(g) && IsAnd(g, v) && v <= g.maxvar && CodeTable(g, code, Order(g, done))
    ensures 0 < v && 2 * v + 1 < |code| && (code[2 * v] != 0 <==> v in done) && (v in Order(g, done) <==> v in done)
  {
    hide CodeTable;
    KindsDisjoint(g);
    CodeOf(g, code, Order(g, done), 2 * v);
    TableLength(g, code, Order(g, done));
    SourcesDistinct(g);
    assert v !in Sources(g);
  }

  // ---------- the renumbered graph ----------

  function Larger(a: nat, b: nat): nat { if a < b then b else a }

  function Smaller(a: nat, b: nat): nat { if a < b then a else b }

  function Recode(code: seq<nat>, a: And): And
    requires a.lhs < |code| && a.rhs0 < |code| && a.rhs1 < |code|
  {
    And(code[a.lhs], Larger(code[a.rhs0], code[a.rhs1]), Smaller(code[a.rhs0], code[a.rhs1]))
  }

  ghost predicate Readable(code: seq<nat>, a: And) { a.lhs < |code| && a.rhs0 < |code| && a.rhs1 < |code| }

  /** Gate `i` of the new graph is the recoded gate `done[i]`. */
  ghost predicate NewAnds(g: Net, code: seq<nat>, done: seq<nat>, ands: seq<And>) {
    && |ands| == |done|
    && forall i :: 0 <= i < |done| ==>
         && IsAnd(g, done[i]) && g.types[done[i]].idx < |g.ands| && Readable(code, g.ands[g.types[done[i]].idx])
         && ands[i] == Recode(code, g.ands[g.types[done[i]].idx])
  }

  /** `h` is `g` with the numbers of `code` and with the gates of `done` only. */
  ghost predicate Renumbered(g: Net, h: Net, code: seq<nat>, done: seq<nat>) {
    && h.maxvar == |Order(g, done)|
    && |h.inputs| == |g.inputs| && (forall i :: 0 <= i < |h.inputs| ==> h.inputs[i] == 2 * i + 2)
    && |h.latches| == |g.latches| && (forall i :: 0 <= i < |h.latches| ==> h.latches[i].lit == 2 * (|g.inputs| + i) + 2)
    && NewAnds(g, code, done, h.ands)
  }

  lemma ValAt(g: Net, code: seq<nat>, order: seq<nat>, val: seq<bool>, val': seq<bool>, l: nat, k: nat)
    requires CodeTable(g, code, order) && Var(l) <= g.maxvar && |val| == g.maxvar + 1 && |val'| == |order| + 1
    requires k < |order| && order[k] == Var(l) && val'[k + 1] == val[order[k]]
    ensures l < |code| && (LitVal(val', code[l]) <==> LitVal(val, l))
  {
    CodeOf(g, code, order, l);
  }

  lemma ValConst(g: Net, code: seq<nat>, order: seq<nat>, val: seq<bool>, val': seq<bool>, l: nat)
    requires CodeTable(g, code, order) && Var(l) == 0 && |val| > 0 && |val'| > 0 && !val[0] && !val'[0]
    ensures l < |code| && (LitVal(val', code[l]) <==> LitVal(val, l))
  {
    CodeOf(g, code, order, l);
  }

  lemma EvenLit(val: seq<bool>, v: nat)
    requires v < |val|
    ensures LitVal(val, 2 * v) <==> val[v]
  {
  }

  lemma GateVal(g: Net, x: seq<bool>, s: seq<bool>, val: seq<bool>, i: nat)
    requires Consistent(g, x, s, val) && i < |g.ands|
    ensures |val| == g.maxvar + 1 && !val[0]
    ensures LitVal(val, g.ands[i].lhs) <==> LitVal(val, g.ands[i].rhs0) && LitVal(val, g.ands[i].rhs1)
  {
  }

  lemma ValSize(g: Net, x: seq<bool>, s: seq<bool>, val: seq<bool>)
    requires Consistent(g, x, s, val)
    ensures |val| == g.maxvar + 1 && !val[0]
  {
  }

  /** A source keeps its value: it is given from outside. */
  lemma SourceVal(g: Net, h: Net, x: seq<bool>, s: seq<bool>, val: seq<bool>, val': seq<bool>, k: nat)
    requires TypesOk(g) && Consistent(g, x, s, val) && Consistent(h, x, s, val') && k < |Sources(g)| < |val'|
    requires |h.inputs| == |g.inputs| && (forall i :: 0 <= i < |h.inputs| ==> h.inputs[i] == 2 * i + 2)
    requires |h.latches| == |g.latches| && (forall i :: 0 <= i < |h.latches| ==> h.latches[i].lit == 2 * (|g.inputs| + i) + 2)
    ensures Sources(g)[k] < |val| && val'[k + 1] == val[Sources(g)[k]]
  {
    hide LitVal;
    SourcesDistinct(g);
    var v := Sources(g)[k];
    EvenLit(val', k + 1);
    EvenLit(val, v);
    if k < |g.inputs| {
      assert Place(g, g.inputs[k]) && g.inputs[k] == 2 * v && h.inputs[k] == 2 * (k + 1);
    } else {
      var i := k - |g.inputs|;
      assert Place(g, g.latches[i].lit) && g.latches[i].lit == 2 * v && h.latches[i].lit == 2 * (k + 1);
    }
  }

  /** Every numbered variable has the same value in both graphs. */
  lemma {:induction false} SameValue(g: Net, h: Net, code: seq<nat>, done: seq<nat>, x: seq<bool>, s: seq<bool>,
                                     val: seq<bool>, val': seq<bool>, k: nat)
    requires WellDefined(g) && Finished(g, done) && CodeTable(g, code, Order(g, done)) && Renumbered(g, h, code, done)
    requires Consistent(g, x, s, val) && Consistent(h, x, s, val') && k < |Order(g, done)|
    ensures Order(g, done)[k] < |val| && val'[k + 1] == val[Order(g, done)[k]]
    decreases k, 2
  {
    hide TypesOk, CodeTable, Consistent, Finished, LitVal;
    ValSize(h, x, s, val');
    if k < |Sources(g)| {
      SourceVal(g, h, x, s, val, val', k);
    } else {
      SameGate(g, h, code, done, x, s, val, val', k);
    }
  }

  lemma {:induction false} SameGate(g: Net, h: Net, code: seq<nat>, done: seq<nat>, x: seq<bool>, s: seq<bool>,
                                    val: seq<bool>, val': seq<bool>, k: nat)
    requires WellDefined(g) && Finished(g, done) && CodeTable(g, code, Order(g, done)) && Renumbered(g, h, code, done)
    requires Consistent(g, x, s, val) && Consistent(h, x, s, val') && |Sources(g)| <= k < |Order(g, done)|
    ensures Order(g, done)[k] < |val| && val'[k + 1] == val[Order(g, done)[k]]
    decreases k, 1
  {
    hide TypesOk, CodeTable, Kid, Consistent, LitVal, Finished;
    var order, i := Order(g, done), k - |Sources(g)|;
    var v := done[i];
    assert order[k] == v && IsAnd(g, v);
    GateOf(g, v);
    var a := g.ands[g.types[v].idx];
    KidVals(g, h, code, done, x, s, val, val', k, a.rhs0);
    KidVals(g, h, code, done, x, s, val, val', k, a.rhs1);
    CodeOf(g, code, order, a.lhs);
    GateVal(g, x, s, val, g.types[v].idx);
    GateVal(h, x, s, val', i);
    EvenLit(val, v);
    EvenLit(val', k + 1);
    assert h.ands[i] == Recode(code, a) && h.ands[i].lhs == 2 * (k + 1);
  }

  lemma GateOf(g: Net, v: nat)
    requires WellDefined(g) && IsAnd(g, v)
    ensures v <= g.maxvar && g.types[v].idx < |g.ands| && g.ands[g.types[v].idx].lhs == 2 * v
    ensures var a := g.ands[g.types[v].idx]; Kid(g, v, Var(a.rhs0)) && Kid(g, v, Var(a.rhs1))
    ensures var a := g.ands[g.types[v].idx]; Var(a.rhs0) <= g.maxvar && Var(a.rhs1) <= g.maxvar
  {
  }

  lemma {:induction false} KidVals(g: Net, h: Net, code: seq<nat>, done: seq<nat>, x: seq<bool>, s: seq<bool>,
                                   val: seq<bool>, val': seq<bool>, k: nat, l: nat)
    requires WellDefined(g) && Finished(g, done) && CodeTable(g, code, Order(g, done)) && Renumbered(g, h, code, done)
    requires Consistent(g, x, s, val) && Consistent(h, x, s, val') && |Sources(g)| <= k < |Order(g, done)|
    requires Kid(g, Order(g, done)[k], Var(l))
    ensures Var(l) <= g.maxvar && l < |code| && (LitVal(val', code[l]) <==> LitVal(val, l))
    decreases k, 0
  {
    var order := Order(g, done);
    KidsDefined(g, order[k], Var(l));
    if Var(l) == 0 {
      ValConst(g, code, order, val, val', l);
    } else {
      var j := KidPlace(g, done, k, Var(l));
      SameValue(g, h, code, done, x, s, val, val', j);
      ValAt(g, code, order, val, val', l, j);
    }
  }

  /** A fan-in of a numbered gate is the constant or has an earlier number. */
  lemma KidPlace(g: Net, done: seq<nat>, k: nat, u: nat) returns (j: nat)
    requires WellDefined(g) && Finished(g, done) && |Sources(g)| <= k < |Order(g, done)| && Kid(g, Order(g, done)[k], u) && u != 0
    ensures j < k && Order(g, done)[j] == u
  {
    hide TypesOk;
    var order, p, i := Order(g, done), Sources(g), k - |Sources(g)|;
    KidsDefined(g, order[k], u);
    assert order[k] == done[i];
    if IsAnd(g, u) {
      var n :| 0 <= n < i && done[n] == u;
      j := |p| + n;
    } else {
      SourcesDistinct(g);
      var n :| 0 <= n < |p| && p[n] == u;
      j := n;
    }
  }

  // ---------- what is dropped ----------

  /** A way from gate to gate along fan-ins. */
  ghost predicate Path(g: Net, p: seq<nat>) {
    |p| > 0 && (forall k :: 0 <= k < |p| ==> IsAnd(g, p[k])) && forall k :: 0 <= k < |p| - 1 ==> Kid(g, p[k], p[k + 1])
  }

  /** Some root depends on gate `v`. */
  ghost predicate Needed(g: Net, v: nat) { exists l, p :: LeadsTo(g, l, p, v) }

  ghost predicate LeadsTo(g: Net, l: nat, p: seq<nat>, v: nat) {
    Root(g, l) && Path(g, p) && p[0] == Var(l) && p[|p| - 1] == v
  }

  ghost predicate AllNeeded(g: Net, vs: seq<nat>) { forall v :: v in vs ==> Needed(g, v) }

  lemma NeededGate(g: Net, v: nat)
    requires Needed(g, v)
    ensures IsAnd(g, v)
  {
  }

  lemma RootNeeded(g: Net, l: nat)
    requires Root(g, l) && IsAnd(g, Var(l))
    ensures Needed(g, Var(l))
  {
    assert LeadsTo(g, l, [Var(l)], Var(l));
  }

  lemma KidNeeded(g: Net, v: nat, u: nat)
    requires Needed(g, v) && Kid(g, v, u) && IsAnd(g, u)
    ensures Needed(g, u)
  {
    hide Kid, IsAnd, Root;
    var l, p :| LeadsTo(g, l, p, v);
    assert LeadsTo(g, l, p + [u], u);
  }

  /** Only gates outside the fan-in of every numbered gate are dropped. */
  lemma {:induction false} PathKept(g: Net, done: seq<nat>, p: seq<nat>)
    requires Finished(g, done) && Path(g, p) && p[0] in done
    ensures p[|p| - 1] in done
  {
    if |p| > 1 {
      var q := p[..|p| - 1];
      PathKept(g, done, q);
      var k :| 0 <= k < |done| && done[k] == q[|q| - 1];
      assert Kid(g, p[|p| - 2], p[|p| - 2 + 1]);
      assert p[|p| - 1] in done[..k];
    }
  }

  // ---------- sorted gates ----------

  ghost predicate Ascending(ands: seq<And>) { forall j, k :: 0 <= j < k < |ands| ==> ands[j].lhs < ands[k].lhs }

  lemma {:induction false} SameAscending(a: seq<And>, b: seq<And>)
    requires Ascending(a) && Ascending(b) && forall x :: x in a <==> x in b
    ensures a == b
  {
    if b != [] { assert b[0] in b; }
    if a != [] {
      assert a[0] in a;
      var m, n := |a| - 1, |b| - 1;
      LastEqual(a, b);
      forall x ensures x in a[..m] <==> x in b[..n] {
        assert x in a <==> x in a[..m] || x == a[m] by { assert a == a[..m] + [a[m]]; }
        assert x in b <==> x in b[..n] || x == b[n] by { assert b == b[..n] + [b[n]]; }
      }
      SameAscending(a[..m], b[..n]);
      assert a == a[..m] + [a[m]] && b == b[..n] + [b[n]];
    }
  }

  lemma LastEqual(a: seq<And>, b: seq<And>)
    requires Ascending(a) && Ascending(b) && a != [] && b != [] && forall x :: x in a <==> x in b
    ensures a[|a| - 1] == b[|b| - 1]
  {
    assert a[|a| - 1] in a && b[|b| - 1] in b;
    var i :| 0 <= i < |b| && b[i] == a[|a| - 1];
    var j :| 0 <= j < |a| && a[j] == b[|b| - 1];
  }

  /** The gates of the new graph in order. */
  ghost function RecodedGates(g: Net, code: seq<nat>, done: seq<nat>): (r: seq<And>)
    requires WellDefined(g) && Finished(g, done) && |code| == 2 * (g.maxvar + 1)
    ensures |r| == |done|
  {
    seq(|done|, k requires 0 <= k < |done| => GateCode(g, code, done[k]))
  }

  ghost function GateCode(g: Net, code: seq<nat>, v: nat): And
    requires WellDefined(g) && IsAnd(g, v) && |code| == 2 * (g.maxvar + 1)
  {
    GateOf(g, v);
    Recode(code, g.ands[g.types[v].idx])
  }

  /** Gate `i` has a number and becomes `b`. */
  ghost predicate Kept(g: Net, code: seq<nat>, i: nat, b: And) {
    i < |g.ands| && Readable(code, g.ands[i]) && code[g.ands[i].lhs] != 0 && b == Recode(code, g.ands[i])
  }

  /** The recoded gates, sorted, are exactly the finished gates in the order of their numbers. */
  lemma SortedGates(g: Net, code: seq<nat>, done: seq<nat>, ands: seq<And>)
    requires WellDefined(g) && Finished(g, done) && CodeTable(g, code, Order(g, done)) && Ascending(ands)
    requires forall b :: b in ands <==> exists i :: 0 <= i < |g.ands| && Kept(g, code, i, b)
    ensures NewAnds(g, code, done, ands)
  {
    hide TypesOk, CodeTable, Recode, Kid;
    TableLength(g, code, Order(g, done));
    var fs := RecodedGates(g, code, done);
    forall k | 0 <= k < |done| ensures fs[k].lhs == 2 * (|Sources(g)| + k) + 2 && fs[k] in ands {
      GateNumber(g, code, done, k);
      assert Kept(g, code, g.types[done[k]].idx, fs[k]);
    }
    forall b | b in ands ensures b in fs { GateListed(g, code, done, b); }
    SameAscending(ands, fs);
    forall i | 0 <= i < |done|
      ensures IsAnd(g, done[i]) && g.types[done[i]].idx < |g.ands| && Readable(code, g.ands[g.types[done[i]].idx])
      ensures ands[i] == Recode(code, g.ands[g.types[done[i]].idx])
    {
      GateNumber(g, code, done, i);
    }
  }

  lemma GateNumber(g: Net, code: seq<nat>, done: seq<nat>, k: nat)
    requires WellDefined(g) && Finished(g, done) && CodeTable(g, code, Order(g, done)) && k < |done|
    ensures IsAnd(g, done[k]) && g.types[done[k]].idx < |g.ands| && Readable(code, g.ands[g.types[done[k]].idx])
    ensures GateCode(g, code, done[k]) == Recode(code, g.ands[g.types[done[k]].idx])
    ensures GateCode(g, code, done[k]).lhs == 2 * (|Sources(g)| + k) + 2 == code[g.ands[g.types[done[k]].idx].lhs]
  {
    hide TypesOk, CodeTable;
    TableLength(g, code, Order(g, done));
    GateOf(g, done[k]);
    assert Order(g, done)[|Sources(g)| + k] == done[k];
    CodeOf(g, code, Order(g, done), g.ands[g.types[done[k]].idx].lhs);
  }

  lemma TableLength(g: Net, code: seq<nat>, order: seq<nat>)
    requires CodeTable(g, code, order)
    ensures |code| == 2 * (g.maxvar + 1)
  {
  }

  lemma GateAt(g: Net, i: nat)
    requires TypesOk(g) && i < |g.ands|
    ensures var v := Var(g.ands[i].lhs); IsAnd(g, v) && g.types[v].idx == i && g.ands[i].lhs == 2 * v && v <= g.maxvar
  {
    assert Place(g, g.ands[i].lhs);
  }

  /** A gate with a number is finished. */
  lemma NumberedGate(g: Net, code: seq<nat>, done: seq<nat>, i: nat) returns (k: nat)
    requires TypesOk(g) && CodeTable(g, code, Order(g, done)) && i < |g.ands| && g.ands[i].lhs < |code| && code[g.ands[i].lhs] != 0
    ensures k < |done| && done[k] == Var(g.ands[i].lhs)
  {
    hide TypesOk, CodeTable;
    var v := Var(g.ands[i].lhs);
    GateAt(g, i);
    CodeOf(g, code, Order(g, done), g.ands[i].lhs);
    SourcesDistinct(g);
    var n :| 0 <= n < |Order(g, done)| && Order(g, done)[n] == v;
    k := n - |Sources(g)|;
  }

  lemma GateListed(g: Net, code: seq<nat>, done: seq<nat>, b: And)
    requires WellDefined(g) && Finished(g, done) && CodeTable(g, code, Order(g, done)) && |code| == 2 * (g.maxvar + 1)
    requires exists i :: 0 <= i < |g.ands| && Kept(g, code, i, b)
    ensures b in RecodedGates(g, code, done)
  {
    hide TypesOk, CodeTable, Recode, Kid, Finished;
    var i :| 0 <= i < |g.ands| && Kept(g, code, i, b);
    GateAt(g, i);
    var k := NumberedGate(g, code, done, i);
    assert RecodedGates(g, code, done)[k] == b;
  }

  /** Inputs, latches and gates, in this order, have consecutive numbers. */
  ghost predicate Consecutive(g: Net) {
    && (forall i :: 0 <= i < |g.inputs| ==> g.inputs[i] == 2 * i + 2)
    && (forall i :: 0 <= i < |g.latches| ==> g.latches[i].lit == 2 * (|g.inputs| + i) + 2)
    && forall i :: 0 <= i < |g.ands| ==> g.ands[i].lhs == 2 * (|g.inputs| + |g.latches| + i) + 2
  }

  /** The condition that the writer of the binary format needs. */
  ghost predicate Reencoded(g: Net) {
    Consecutive(g) && forall i :: 0 <= i < |g.ands| ==> g.ands[i].rhs1 <= g.ands[i].rhs0 <= g.ands[i].lhs
  }

  /** Numbers behind the fan-ins make the new graph a re-encoded one. */
  lemma RenumberedIsReencoded(g: Net, h: Net, code: seq<nat>, done: seq<nat>)
    requires WellDefined(g) && Finished(g, done) && CodeTable(g, code, Order(g, done)) && Renumbered(g, h, code, done)
    ensures Reencoded(h) && forall i :: 0 <= i < |h.ands| ==> h.ands[i].rhs0 < h.ands[i].lhs
  {
    hide TypesOk, CodeTable, Kid;
    forall i | 0 <= i < |h.ands|
      ensures h.ands[i].lhs == 2 * (|h.inputs| + |h.latches| + i) + 2
      ensures h.ands[i].rhs1 <= h.ands[i].rhs0 < h.ands[i].lhs
    {
      GateNumber(g, code, done, i);
      GateOf(g, done[i]);
      var a := g.ands[g.types[done[i]].idx];
      KidCode(g, code, done, |Sources(g)| + i, a.rhs0);
      KidCode(g, code, done, |Sources(g)| + i, a.rhs1);
    }
  }

  lemma KidCode(g: Net, code: seq<nat>, done: seq<nat>, k: nat, l: nat)
    requires WellDefined(g) && Finished(g, done) && CodeTable(g, code, Order(g, done))
    requires |Sources(g)| <= k < |Order(g, done)| && Kid(g, Order(g, done)[k], Var(l))
    ensures l < |code| && code[l] < 2 * k + 2
  {
    hide TypesOk, CodeTable;
    KidsDefined(g, Order(g, done)[k], Var(l));
    CodeOf(g, code, Order(g, done), l);
    if Var(l) != 0 { var j := KidPlace(g, done, k, Var(l)); }
  }
}
