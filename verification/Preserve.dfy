/** What renumbering keeps: the value of every root, and every gate that a root depends on. */
module Preservation {
  import opened Nets
  import opened DepthFirst
  import opened Renumbering

  /** The entry of variable `v` once `i` inputs, `j` latches and `k` gates have been entered. */
  function Filled(v: nat, ni: nat, nl: nat, i: nat, j: nat, k: nat): Type {
    if 0 < v <= i then Type(true, false, false, v - 1)
    else if ni < v <= ni + j then Type(false, true, false, v - ni - 1)
    else if ni + nl < v <= ni + nl + k then Type(false, false, true, v - ni - nl - 1)
    else Type(false, false, false, 0)
  }

  ghost predicate Entered(types: seq<Type>, ni: nat, nl: nat, na: nat, i: nat, j: nat, k: nat) {
    |types| == ni + nl + na + 1 && forall v :: 0 <= v < |types| ==> types[v] == Filled(v, ni, nl, i, j, k)
  }

  lemma NothingEntered(types: seq<Type>, ni: nat, nl: nat, na: nat)
    requires |types| == ni + nl + na + 1 && forall v :: 0 <= v < |types| ==> types[v] == Type(false, false, false, 0)
    ensures Entered(types, ni, nl, na, 0, 0, 0)
  {
  }

  lemma TypeEntered(types: seq<Type>, ni: nat, nl: nat, na: nat, i: nat, j: nat, k: nat)
    requires Entered(types, ni, nl, na, i, j, k) && i <= ni && j <= nl && k <= na
    ensures |types| == ni + nl + na + 1
    ensures i < ni ==> Entered(types[i + 1 := Type(true, false, false, i)], ni, nl, na, i + 1, j, k)
    ensures j < nl ==> Entered(types[ni + j + 1 := Type(false, true, false, j)], ni, nl, na, i, j + 1, k)
    ensures k < na ==> Entered(types[ni + nl + k + 1 := Type(false, false, true, k)], ni, nl, na, i, j, k + 1)
  {
  }

  /** The table of variables for consecutive numbers. */
  ghost predicate Canonical(g: Net) {
    && g.maxvar == |g.inputs| + |g.latches| + |g.ands|
    && Entered(g.types, |g.inputs|, |g.latches|, |g.ands|, |g.inputs|, |g.latches|, |g.ands|)
  }

  lemma CanonicalTypes(g: Net)
    requires Consecutive(g) && Canonical(g)
    ensures TypesOk(g)
  {
    forall i | 0 <= i < |g.inputs| ensures Place(g, g.inputs[i]) && Var(g.inputs[i]) == i + 1 {}
    forall i | 0 <= i < |g.latches| ensures Place(g, g.latches[i].lit) && Var(g.latches[i].lit) == |g.inputs| + i + 1 {}
    forall i | 0 <= i < |g.ands| ensures Place(g, g.ands[i].lhs) && Var(g.ands[i].lhs) == |g.inputs| + |g.latches| + i + 1 {}
  }

  /** Every number in range belongs to something. */
  lemma CanonicalDefined(g: Net, l: nat)
    requires Canonical(g) && Var(l) <= g.maxvar
    ensures Defined(g, l)
  {
  }

  /** A literal of the constant or of a numbered variable. */
  ghost predicate HasCode(g: Net, code: seq<nat>, done: seq<nat>, l: nat) {
    l < |code| && Var(l) <= g.maxvar && (l < 2 || Var(l) in Order(g, done))
  }

  function Nexts(ls: seq<Latch>): seq<nat> { seq(|ls|, k requires 0 <= k < |ls| => ls[k].next) }

  function Resets(ls: seq<Latch>): seq<nat> { seq(|ls|, k requires 0 <= k < |ls| => ls[k].reset) }

  /** `res` are the codes of `lits`. */
  ghost predicate Mapped(g: Net, code: seq<nat>, done: seq<nat>, lits: seq<nat>, res: seq<nat>) {
    |res| == |lits| && forall i :: 0 <= i < |lits| ==> HasCode(g, code, done, lits[i]) && res[i] == code[lits[i]]
  }

  ghost predicate MappedSets(g: Net, code: seq<nat>, done: seq<nat>, sets: seq<seq<nat>>, res: seq<seq<nat>>) {
    |res| == |sets| && forall i :: 0 <= i < |sets| ==> Mapped(g, code, done, sets[i], res[i])
  }

  // ---------- the whole graph ----------

  /** `h` is what renumbering makes of `g` when the gates of `done` get numbers. */
  ghost predicate Reencodes(g: Net, h: Net, code: seq<nat>, done: seq<nat>) {
    && Finished(g, done) && CodeTable(g, code, Order(g, done)) && Renumbered(g, h, code, done) && Canonical(h)
    && AllNeeded(g, done) && RootsMapped(g, code, done, h)
  }

  /** The roots of `h` are the codes of the roots of `g`. */
  ghost predicate RootsMapped(g: Net, code: seq<nat>, done: seq<nat>, h: Net) {
    && Mapped(g, code, done, g.outputs, h.outputs) && Mapped(g, code, done, g.bad, h.bad)
    && Mapped(g, code, done, g.constraints, h.constraints) && MappedSets(g, code, done, g.justice, h.justice)
    && Mapped(g, code, done, g.fairness, h.fairness)
    && Mapped(g, code, done, Nexts(g.latches), Nexts(h.latches)) && Mapped(g, code, done, Resets(g.latches), Resets(h.latches))
  }

  ghost predicate Agree(a: seq<nat>, b: seq<nat>, val: seq<bool>, val': seq<bool>) {
    |a| == |b| && forall i :: 0 <= i < |a| ==> (LitVal(val, a[i]) <==> LitVal(val', b[i]))
  }

  ghost predicate AgreeSets(a: seq<seq<nat>>, b: seq<seq<nat>>, val: seq<bool>, val': seq<bool>) {
    |a| == |b| && forall i :: 0 <= i < |a| ==> Agree(a[i], b[i], val, val')
  }

  /** The next states, resets, outputs, bad states, constraints, justice and fairness properties of `g` under `val` are
      those of `h` under `val'`. */
  ghost predicate SameRoots(g: Net, h: Net, val: seq<bool>, val': seq<bool>) {
    && Agree(g.outputs, h.outputs, val, val') && Agree(g.bad, h.bad, val, val') && Agree(g.constraints, h.constraints, val, val')
    && AgreeSets(g.justice, h.justice, val, val') && Agree(g.fairness, h.fairness, val, val')
    && Agree(Nexts(g.latches), Nexts(h.latches), val, val') && Agree(Resets(g.latches), Resets(h.latches), val, val')
  }

  /** For all inputs and all states both graphs give the same values to their roots. */
  ghost predicate SameMeaning(g: Net, h: Net) {
    && |g.inputs| == |h.inputs| && |g.latches| == |h.latches|
    && forall x, s, val, val' :: Consistent(g, x, s, val) && Consistent(h, x, s, val') ==> SameRoots(g, h, val, val')
  }

  lemma SameLit(g: Net, h: Net, code: seq<nat>, done: seq<nat>, x: seq<bool>, s: seq<bool>, val: seq<bool>, val': seq<bool>, l: nat)
    requires WellDefined(g) && Finished(g, done) && CodeTable(g, code, Order(g, done)) && Renumbered(g, h, code, done)
    requires Consistent(g, x, s, val) && Consistent(h, x, s, val') && HasCode(g, code, done, l)
    ensures LitVal(val', code[l]) <==> LitVal(val, l)
  {
    hide WellDefined, Finished, CodeTable, Consistent, LitVal;
    ValSize(g, x, s, val);
    ValSize(h, x, s, val');
    var order := Order(g, done);
    if Var(l) == 0 {
      ValConst(g, code, order, val, val', l);
    } else {
      var k :| 0 <= k < |order| && order[k] == Var(l);
      SameValue(g, h, code, done, x, s, val, val', k);
      ValAt(g, code, order, val, val', l, k);
    }
  }

  lemma SameList(g: Net, h: Net, code: seq<nat>, done: seq<nat>, x: seq<bool>, s: seq<bool>, val: seq<bool>, val': seq<bool>,
                 lits: seq<nat>, res: seq<nat>)
    requires WellDefined(g) && Finished(g, done) && CodeTable(g, code, Order(g, done)) && Renumbered(g, h, code, done)
    requires Consistent(g, x, s, val) && Consistent(h, x, s, val') && Mapped(g, code, done, lits, res)
    ensures Agree(lits, res, val, val')
  {
    hide WellDefined, Finished, CodeTable, Consistent, Renumbered, HasCode, LitVal;
    forall i | 0 <= i < |lits| ensures LitVal(val, lits[i]) <==> LitVal(val', res[i]) {
      SameLit(g, h, code, done, x, s, val, val', lits[i]);
    }
  }

  lemma SameSets(g: Net, h: Net, code: seq<nat>, done: seq<nat>, x: seq<bool>, s: seq<bool>, val: seq<bool>, val': seq<bool>,
                 sets: seq<seq<nat>>, res: seq<seq<nat>>)
    requires WellDefined(g) && Finished(g, done) && CodeTable(g, code, Order(g, done)) && Renumbered(g, h, code, done)
    requires Consistent(g, x, s, val) && Consistent(h, x, s, val') && MappedSets(g, code, done, sets, res)
    ensures AgreeSets(sets, res, val, val')
  {
    hide WellDefined, Finished, CodeTable, Consistent, Renumbered, Mapped, Agree;
    forall i | 0 <= i < |sets| ensures Agree(sets[i], res[i], val, val') {
      SameList(g, h, code, done, x, s, val, val', sets[i], res[i]);
    }
  }

  /** Renumbering keeps the value of every root, for all inputs and states. */
  lemma KeepsMeaning(g: Net, h: Net, code: seq<nat>, done: seq<nat>)
    requires WellDefined(g) && Reencodes(g, h, code, done)
    ensures SameMeaning(g, h)
  {
    hide WellDefined, Finished, CodeTable, Consistent, Mapped, MappedSets, Agree, AgreeSets, Canonical;
    forall x, s, val, val' | Consistent(g, x, s, val) && Consistent(h, x, s, val') ensures SameRoots(g, h, val, val') {
      SameList(g, h, code, done, x, s, val, val', g.outputs, h.outputs);
      SameList(g, h, code, done, x, s, val, val', g.bad, h.bad);
      SameList(g, h, code, done, x, s, val, val', g.constraints, h.constraints);
      SameSets(g, h, code, done, x, s, val, val', g.justice, h.justice);
      SameList(g, h, code, done, x, s, val, val', g.fairness, h.fairness);
      SameList(g, h, code, done, x, s, val, val', Nexts(g.latches), Nexts(h.latches));
      SameList(g, h, code, done, x, s, val, val', Resets(g.latches), Resets(h.latches));
    }
  }

  /** Without cycles the inputs and the state determine the value of everything that is defined. */
  lemma {:induction false} OneValue(g: Net, rank: seq<nat>, x: seq<bool>, s: seq<bool>, val: seq<bool>, val': seq<bool>, v: nat)
    requires WellDefined(g) && Ranked(g, rank) && Consistent(g, x, s, val) && Consistent(g, x, s, val')
    requires v <= g.maxvar && Defined(g, 2 * v)
    ensures val[v] == val'[v]
    decreases rank[v], 1
  {
    hide LitVal;
    EvenLit(val, v);
    EvenLit(val', v);
    if g.types[v].and {
      var i := g.types[v].idx;
      var a := g.ands[i];
      KidSame(g, rank, x, s, val, val', v, a.rhs0);
      KidSame(g, rank, x, s, val, val', v, a.rhs1);
      GateVal(g, x, s, val, i);
      GateVal(g, x, s, val', i);
    }
  }

  lemma {:induction false} KidSame(g: Net, rank: seq<nat>, x: seq<bool>, s: seq<bool>, val: seq<bool>, val': seq<bool>, v: nat, l: nat)
    requires WellDefined(g) && Ranked(g, rank) && Consistent(g, x, s, val) && Consistent(g, x, s, val')
    requires v <= g.maxvar && Kid(g, v, Var(l))
    ensures LitVal(val, l) <==> LitVal(val', l)
    decreases rank[v], 0
  {
    var u := Var(l);
    KidsDefined(g, v, u);
    if IsAnd(g, u) { OneValue(g, rank, x, s, val, val', u); }
    else { EvenLit(val, u); EvenLit(val', u); }
  }

  lemma SameGraph(g: Net)
    requires WellDefined(g) && Acyclic(g)
    ensures SameMeaning(g, g)
  {
    hide WellDefined, Consistent, Ranked;
    var rank :| Ranked(g, rank);
    forall x, s, val, val' | Consistent(g, x, s, val) && Consistent(g, x, s, val') ensures SameRoots(g, g, val, val') {
      SameGraphRoots(g, rank, x, s, val, val');
    }
  }

  lemma SameGraphRoots(g: Net, rank: seq<nat>, x: seq<bool>, s: seq<bool>, val: seq<bool>, val': seq<bool>)
    requires WellDefined(g) && Ranked(g, rank) && Consistent(g, x, s, val) && Consistent(g, x, s, val')
    ensures SameRoots(g, g, val, val')
  {
    forall l | Root(g, l) ensures LitVal(val, l) <==> LitVal(val', l) {
      assert Defined(g, l) && Defined(g, 2 * Var(l));
      OneValue(g, rank, x, s, val, val', Var(l));
    }
    forall i | 0 <= i < |g.latches| ensures Root(g, Nexts(g.latches)[i]) && Root(g, Resets(g.latches)[i]) {}
    forall i, l | 0 <= i < |g.justice| && l in g.justice[i] ensures Root(g, l) { assert InSome(g.justice, l); }
  }

  // ---------- the new graph ----------

  /** A code is a literal of the new graph. */
  lemma CodeInRange(g: Net, code: seq<nat>, done: seq<nat>, l: nat)
    requires CodeTable(g, code, Order(g, done)) && HasCode(g, code, done, l)
    ensures Var(code[l]) <= |Order(g, done)|
  {
    hide CodeTable;
    CodeOf(g, code, Order(g, done), l);
    if l >= 2 { var k :| 0 <= k < |Order(g, done)| && Order(g, done)[k] == Var(l); }
  }

  lemma ListInRange(g: Net, h: Net, code: seq<nat>, done: seq<nat>, lits: seq<nat>, res: seq<nat>)
    requires CodeTable(g, code, Order(g, done)) && h.maxvar == |Order(g, done)| && Canonical(h) && Mapped(g, code, done, lits, res)
    ensures forall l :: l in res ==> Defined(h, l)
  {
    hide CodeTable, Canonical, HasCode, Defined;
    forall l | l in res ensures Defined(h, l) {
      var i :| 0 <= i < |res| && res[i] == l;
      CodeInRange(g, code, done, lits[i]);
      CanonicalDefined(h, l);
    }
  }

  lemma SetsInRange(g: Net, h: Net, code: seq<nat>, done: seq<nat>, sets: seq<seq<nat>>, res: seq<seq<nat>>)
    requires CodeTable(g, code, Order(g, done)) && h.maxvar == |Order(g, done)| && Canonical(h) && MappedSets(g, code, done, sets, res)
    ensures forall l :: InSome(res, l) ==> Defined(h, l)
  {
    hide CodeTable, Canonical, Mapped, Defined;
    forall l | InSome(res, l) ensures Defined(h, l) {
      var j :| 0 <= j < |res| && l in res[j];
      ListInRange(g, h, code, done, sets[j], res[j]);
    }
  }

  /** The numbers of the new graph rank its gates. */
  lemma NumbersRank(h: Net)
    requires Consecutive(h) && Canonical(h) && forall i :: 0 <= i < |h.ands| ==> h.ands[i].rhs1 <= h.ands[i].rhs0 < h.ands[i].lhs
    ensures Acyclic(h) && forall i :: 0 <= i < |h.ands| ==> Defined(h, h.ands[i].rhs0) && Defined(h, h.ands[i].rhs1)
  {
    var rank := seq(|h.types|, v requires 0 <= v => v);
    forall v: nat, u: nat | v < |rank| && u < |rank| && Kid(h, v, u) && IsAnd(h, u) ensures rank[u] < rank[v] {
      assert h.ands[h.types[v].idx].lhs == 2 * v;
    }
    assert Ranked(h, rank);
    forall i | 0 <= i < |h.ands| ensures Defined(h, h.ands[i].rhs0) && Defined(h, h.ands[i].rhs1) {
      CanonicalDefined(h, h.ands[i].rhs0);
      CanonicalDefined(h, h.ands[i].rhs1);
    }
  }

  /** The new graph is well defined, without cycles, re-encoded, and has no larger variables. */
  lemma NewGraph(g: Net, h: Net, code: seq<nat>, done: seq<nat>)
    requires WellDefined(g) && Reencodes(g, h, code, done)
    ensures WellDefined(h) && Acyclic(h) && Reencoded(h) && h.maxvar <= g.maxvar
  {
    hide TypesOk, CodeTable, Finished, Canonical, Mapped, MappedSets, InSome, Defined, Consistent, NewAnds, Acyclic;
    RenumberedIsReencoded(g, h, code, done);
    CanonicalTypes(h);
    NumbersRank(h);
    OrderSize(g, code, Order(g, done));
    ListInRange(g, h, code, done, g.outputs, h.outputs);
    ListInRange(g, h, code, done, g.bad, h.bad);
    ListInRange(g, h, code, done, g.constraints, h.constraints);
    SetsInRange(g, h, code, done, g.justice, h.justice);
    ListInRange(g, h, code, done, g.fairness, h.fairness);
    ListInRange(g, h, code, done, Nexts(g.latches), Nexts(h.latches));
    ListInRange(g, h, code, done, Resets(g.latches), Resets(h.latches));
    RootLists(h);
  }

  lemma RootLists(h: Net)
    ensures forall l :: Root(h, l) <==> (l in h.outputs || l in h.bad || l in h.constraints || InSome(h.justice, l) ||
                                         l in h.fairness || l in Nexts(h.latches) || l in Resets(h.latches))
  {
    hide InSome;
    forall l
      ensures (l in Nexts(h.latches) || l in Resets(h.latches)) <==>
              exists i :: 0 <= i < |h.latches| && (l == h.latches[i].next || l == h.latches[i].reset)
    {
      if exists i :: 0 <= i < |h.latches| && (l == h.latches[i].next || l == h.latches[i].reset) {
        var i :| 0 <= i < |h.latches| && (l == h.latches[i].next || l == h.latches[i].reset);
        assert l == Nexts(h.latches)[i] || l == Resets(h.latches)[i];
      }
    }
  }

  /** Different numbered variables are no more than there are variables. */
  lemma OrderSize(g: Net, code: seq<nat>, order: seq<nat>)
    requires CodeTable(g, code, order)
    ensures |order| <= g.maxvar
  {
    OrderDistinct(g, code, order);
    FitsBelow(order, g.maxvar);
  }

  lemma {:induction false} FitsBelow(order: seq<nat>, n: nat)
    requires (forall k :: 0 <= k < |order| ==> 0 < order[k] <= n) && forall j, k :: 0 <= j < k < |order| ==> order[j] != order[k]
    ensures |order| <= n
  {
    if order == [] {
    } else if n in order {
      var k :| 0 <= k < |order| && order[k] == n;
      var rest := order[..k] + order[k + 1..];
      FitsBelow(rest, n - 1);
    } else {
      assert 0 < order[0];
      FitsBelow(order, n - 1);
    }
  }

  // ---------- what is dropped ----------

  lemma InMapped(g: Net, code: seq<nat>, done: seq<nat>, lits: seq<nat>, res: seq<nat>, l: nat)
    requires Mapped(g, code, done, lits, res) && l in lits
    ensures HasCode(g, code, done, l)
  {
  }

  lemma InMappedSets(g: Net, code: seq<nat>, done: seq<nat>, sets: seq<seq<nat>>, res: seq<seq<nat>>, l: nat)
    requires MappedSets(g, code, done, sets, res) && InSome(sets, l)
    ensures HasCode(g, code, done, l)
  {
    hide HasCode, Mapped;
    var j :| 0 <= j < |sets| && l in sets[j];
    InMapped(g, code, done, sets[j], res[j], l);
  }

  lemma RootNumbered(g: Net, h: Net, code: seq<nat>, done: seq<nat>, l: nat)
    requires Reencodes(g, h, code, done) && Root(g, l)
    ensures HasCode(g, code, done, l)
  {
    hide Finished, CodeTable, Renumbered, Canonical, HasCode, Mapped, MappedSets, InSome, Root;
    RootLists(g);
    if l in g.outputs { InMapped(g, code, done, g.outputs, h.outputs, l); }
    else if l in g.bad { InMapped(g, code, done, g.bad, h.bad, l); }
    else if l in g.constraints { InMapped(g, code, done, g.constraints, h.constraints, l); }
    else if InSome(g.justice, l) { InMappedSets(g, code, done, g.justice, h.justice, l); }
    else if l in g.fairness { InMapped(g, code, done, g.fairness, h.fairness, l); }
    else if l in Nexts(g.latches) { InMapped(g, code, done, Nexts(g.latches), Nexts(h.latches), l); }
    else { InMapped(g, code, done, Resets(g.latches), Resets(h.latches), l); }
  }

  /** A gate that some root depends on is a gate of the new graph. */
  lemma OnlyUnusedDropped(g: Net, h: Net, code: seq<nat>, done: seq<nat>, l: nat, p: seq<nat>) returns (i: nat)
    requires WellDefined(g) && Reencodes(g, h, code, done) && Root(g, l) && Path(g, p) && p[0] == Var(l)
    ensures |code| == 2 * (g.maxvar + 1) && i < |h.ands| && h.ands[i] == GateCode(g, code, p[|p| - 1])
  {
    hide TypesOk, CodeTable, Canonical, Defined, IsAnd;
    TableLength(g, code, Order(g, done));
    RootNumbered(g, h, code, done, l);
    GateOf(g, p[0]);
    GateNumbered(g, code, done, p[0]);
    PathKept(g, done, p);
    i :| 0 <= i < |done| && done[i] == p[|p| - 1];
    GateNumber(g, code, done, i);
  }

  /** Every gate of the new graph is a gate that some root depends on. */
  lemma OnlyUsedKept(g: Net, h: Net, code: seq<nat>, done: seq<nat>, i: nat) returns (v: nat)
    requires WellDefined(g) && Reencodes(g, h, code, done) && i < |h.ands|
    ensures Needed(g, v) && IsAnd(g, v) && |code| == 2 * (g.maxvar + 1) && h.ands[i] == GateCode(g, code, v)
  {
    hide TypesOk, CodeTable, Canonical, Defined, IsAnd, Needed;
    TableLength(g, code, Order(g, done));
    v := done[i];
    NeededGate(g, v);
    GateNumber(g, code, done, i);
  }
}
