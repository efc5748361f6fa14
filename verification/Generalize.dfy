/** The two parallel literal vectors that generalisation works on. */
module Generalization {
  import opened Aigs
  import opened Frames
  import opened Ordering

  /** An entry of the vectors: a literal, or a constant that took its place. */
  datatype Slot = SLit(l: LLit) | STrue | SFalse

  /** The literals that are left in a vector. */
  function Literals(v: seq<Slot>): seq<LLit> {
    if v == [] then []
    else
      var n := |v| - 1;
      Literals(v[..n]) + (if v[n].SLit? then [v[n].l] else [])
  }

  /** The clause under construction, from the vector of "out" literals assumed in queries. */
  function Kept(out: seq<Slot>): Clause { NotAll(Literals(out)) }

  /** What the solver makes of the clause vector: nothing if it contains the constant true, otherwise its literals. */
  function Hypothesis(v: seq<Slot>): seq<Clause> {
    if STrue in v then [] else [Literals(v)]
  }

  /** Every "out" entry is still the negated original literal or the constant true, and where it is a literal the
      clause vector holds the original. */
  ghost predicate Aligned(orig: Clause, inC: seq<Slot>, out: seq<Slot>) {
    && |orig| == |inC| == |out|
    && forall i :: 0 <= i < |out| ==> out[i] == STrue || (out[i] == SLit(Not(orig[i])) && inC[i] == SLit(orig[i]))
  }

  ghost predicate AtSlot(v: seq<Slot>, l: LLit, i: int) {
    0 <= i < |v| && v[i] == SLit(l)
  }

  lemma {:induction false} LiteralsMember(v: seq<Slot>, l: LLit)
    ensures l in Literals(v) <==> exists i :: AtSlot(v, l, i)
  {
    if v != [] {
      var n := |v| - 1;
      LiteralsMember(v[..n], l);
      if i :| AtSlot(v, l, i) { assert i < n ==> AtSlot(v[..n], l, i); }
      if i :| AtSlot(v[..n], l, i) { assert AtSlot(v, l, i); }
      if v[n] == SLit(l) { assert AtSlot(v, l, n); }
    }
  }

  lemma KeptMember(out: seq<Slot>, l: LLit)
    ensures l in Kept(out) <==> exists i :: AtSlot(out, Not(l), i)
  {
    NotAllMember(Literals(out), l);
    LiteralsMember(out, Not(l));
  }

  lemma {:induction false} LiteralsOk(g: Circuit, orig: Clause, inC: seq<Slot>, out: seq<Slot>)
    requires LitsOk(g, orig) && Aligned(orig, inC, out)
    ensures LitsOk(g, Literals(out)) && Subset(Kept(out), orig)
  {
    if out != [] {
      var n := |out| - 1;
      LiteralsOk(g, orig[..n], inC[..n], out[..n]);
      assert orig[n] in orig;
      forall l | l in Literals(out[..n]) ensures l.latch != orig[n].latch {
        LiteralsMember(out[..n], l);
        var i :| AtSlot(out[..n], l, i);
        assert out[i] == SLit(Not(orig[i]));
      }
      forall l | l in Kept(out) ensures l in orig {
        KeptMember(out, l);
        var i :| AtSlot(out, Not(l), i);
        assert l == orig[i];
      }
    }
  }

  lemma KeptOk(g: Circuit, orig: Clause, inC: seq<Slot>, out: seq<Slot>)
    requires LitsOk(g, orig) && Aligned(orig, inC, out)
    ensures LitsOk(g, Kept(out)) && Subset(Kept(out), orig)
  {
    LiteralsOk(g, orig, inC, out);
    forall l | l in Kept(out) ensures l.latch < |g.latches| { NotAllMember(Literals(out), l); }
  }

  /** The exact number of kept literals that hold in every reset state. */
  ghost function ResetCount(g: Circuit, out: seq<Slot>): nat {
    if out == [] then 0
    else
      var n := |out| - 1;
      ResetCount(g, out[..n]) + (if out[n].SLit? && SatisfiesReset(g, Not(out[n].l)) then 1 else 0)
  }

  lemma {:induction false} ResetCountDrop(g: Circuit, out: seq<Slot>, i: nat)
    requires i < |out| && out[i].SLit?
    ensures ResetCount(g, out[i := STrue]) ==
            ResetCount(g, out) - (if SatisfiesReset(g, Not(out[i].l)) then 1 else 0)
  {
    var n := |out| - 1;
    if i < n {
      ResetCountDrop(g, out[..n], i);
      assert out[i := STrue][..n] == out[..n][i := STrue];
    } else {
      assert out[i := STrue][..n] == out[..n];
    }
  }

  lemma {:induction false} ResetCountWitness(g: Circuit, out: seq<Slot>)
    requires ResetCount(g, out) >= 1
    ensures exists l :: l in Kept(out) && SatisfiesReset(g, l)
  {
    var n := |out| - 1;
    if out[n].SLit? && SatisfiesReset(g, Not(out[n].l)) {
      var l := Not(out[n].l);
      assert Not(l) == out[n].l && AtSlot(out, Not(l), n);
      KeptMember(out, l);
    } else {
      ResetCountWitness(g, out[..n]);
      var l :| l in Kept(out[..n]) && SatisfiesReset(g, l);
      KeptMember(out[..n], l);
      var i :| AtSlot(out[..n], Not(l), i);
      assert AtSlot(out, Not(l), i);
      KeptMember(out, l);
    }
  }

  /** `out'` is `out` with some literals replaced by the constant true. */
  ghost predicate Drops(out: seq<Slot>, out': seq<Slot>) {
    |out| == |out'| && forall i :: 0 <= i < |out| ==> out'[i] == out[i] || out'[i] == STrue
  }

  lemma DropsKept(out: seq<Slot>, out': seq<Slot>)
    requires Drops(out, out')
    ensures Subset(Kept(out'), Kept(out))
  {
    forall l | l in Kept(out') ensures l in Kept(out) {
      KeptMember(out', l);
      var i :| AtSlot(out', Not(l), i);
      assert AtSlot(out, Not(l), i);
      KeptMember(out, l);
    }
  }

  /** The clause just activated contains the clause being tried. */
  lemma HypothesisCovers(orig: Clause, inC: seq<Slot>, out: seq<Slot>)
    requires Aligned(orig, inC, out)
    ensures forall h :: h in Hypothesis(inC) ==> Subset(Kept(out), h)
  {
    if STrue !in inC {
      forall l | l in Kept(out) ensures l in Literals(inC) {
        KeptMember(out, l);
        var i :| AtSlot(out, Not(l), i);
        assert AtSlot(inC, l, i);
        LiteralsMember(inC, l);
      }
    }
  }

  /** With one original literal that holds on reset, the count of an untouched vector is at least one. */
  lemma {:induction false} ResetCountStart(g: Circuit, c: Clause, k: nat)
    requires k < |c| && SatisfiesReset(g, c[k])
    ensures ResetCount(g, seq(|c|, i requires 0 <= i < |c| => SLit(Not(c[i])))) >= 1
  {
    var v := seq(|c|, i requires 0 <= i < |c| => SLit(Not(c[i])));
    var n := |c| - 1;
    var d := c[..n];
    assert v[..n] == seq(|d|, i requires 0 <= i < |d| => SLit(Not(d[i])));
    assert Not(Not(c[n])) == c[n];
    if k < n { ResetCountStart(g, d, k); }
  }

  // ---------- what cannot be dropped ----------

  lemma {:induction false} ResetCountDrops(g: Circuit, out: seq<Slot>, out': seq<Slot>)
    requires Drops(out, out')
    ensures ResetCount(g, out') <= ResetCount(g, out)
  {
    if out != [] { ResetCountDrops(g, out[..|out| - 1], out'[..|out| - 1]); }
  }

  /** In the step from `s` under `x`, where `s` is in the frame, every literal but the one at place `i` is violated. */
  ghost predicate LostBy(g: Circuit, st: Store, frame: int, out: seq<Slot>, i: nat, s: State, x: seq<bool>) {
    && IsState(g, s) && IsInput(g, x) && FrameHolds(st, frame, s)
    && forall k :: 0 <= k < |out| && k != i && out[k].SLit? ==> Holds(out[k].l, Next(g, s, x))
  }

  ghost predicate Lost(g: Circuit, st: Store, frame: int, out: seq<Slot>, i: nat) {
    exists s, x :: LostBy(g, st, frame, out, i, s, x)
  }

  /** The literal at place `i` is gone, or is the last one that holds on reset, or the others are not enough. */
  ghost predicate Stays(g: Circuit, st: Store, frame: int, out: seq<Slot>, i: nat) {
    i < |out| && (out[i].SLit? ==> (SatisfiesReset(g, Not(out[i].l)) && ResetCount(g, out) == 1) || Lost(g, st, frame, out, i))
  }

  lemma OnlyOneStays(g: Circuit, st: Store, frame: int, out: seq<Slot>, i: nat)
    requires i < |out|
    ensures out[i] == STrue || (out[i].SLit? && SatisfiesReset(g, Not(out[i].l)) && ResetCount(g, out) == 1) ==> Stays(g, st, frame, out, i)
  {
  }

  lemma LostStays(g: Circuit, st: Store, frame: int, out: seq<Slot>, i: nat)
    requires i < |out| && Lost(g, st, frame, out, i)
    ensures Stays(g, st, frame, out, i)
  {
  }

  lemma GoneStays(g: Circuit, st: Store, frame: int, out: seq<Slot>, out': seq<Slot>, i: nat)
    requires i < |out| && out[i] == STrue && Drops(out, out')
    ensures Stays(g, st, frame, out', i)
  {
  }

  /** Dropping more literals makes none of them dispensable. */
  lemma StaysOn(g: Circuit, st: Store, frame: int, out: seq<Slot>, out': seq<Slot>, i: nat)
    requires Stays(g, st, frame, out, i) && Drops(out, out') && ResetCount(g, out') >= 1
    ensures Stays(g, st, frame, out', i)
  {
    hide FrameHolds;
    ResetCountDrops(g, out, out');
    if Lost(g, st, frame, out, i) {
      var s, x :| LostBy(g, st, frame, out, i, s, x);
      assert LostBy(g, st, frame, out', i, s, x);
    }
  }

  /** The query that found a step shows that the literal it has tried is needed. */
  lemma TrialLost(g: Circuit, st: Store, frame: int, out: seq<Slot>, i: nat, s: State, x: seq<bool>)
    requires i < |out| && IsState(g, s) && IsInput(g, x) && FrameHolds(st, frame, s)
    requires InCube(Literals(out[i := STrue]), Next(g, s, x))
    ensures Lost(g, st, frame, out, i)
  {
    hide FrameHolds;
    var o := out[i := STrue];
    forall k | 0 <= k < |out| && k != i && out[k].SLit? ensures Holds(out[k].l, Next(g, s, x)) {
      LiteralsMember(o, out[k].l);
      assert AtSlot(o, out[k].l, k);
    }
    assert LostBy(g, st, frame, out, i, s, x);
  }

  ghost predicate AllTried(g: Circuit, st: Store, frame: int, out: seq<Slot>, tried: seq<nat>) {
    forall i :: i in tried ==> Stays(g, st, frame, out, i)
  }

  lemma NothingTried(g: Circuit, st: Store, frame: int, out: seq<Slot>, order: seq<nat>)
    ensures AllTried(g, st, frame, out, order[..0])
  {
  }

  lemma OneMoreTried(g: Circuit, st: Store, frame: int, out: seq<Slot>, out': seq<Slot>, order: seq<nat>, j: nat)
    requires j < |order| && AllTried(g, st, frame, out, order[..j]) && Stays(g, st, frame, out', order[j])
    requires Drops(out, out') && ResetCount(g, out') >= 1
    ensures AllTried(g, st, frame, out', order[..j + 1])
  {
    hide Stays, Drops;
    assert order[..j + 1] == order[..j] + [order[j]];
    forall i | i in order[..j] ensures Stays(g, st, frame, out', i) { StaysOn(g, st, frame, out, out', i); }
  }

  lemma EverythingTried(g: Circuit, st: Store, frame: int, out: seq<Slot>, order: seq<nat>)
    requires AllTried(g, st, frame, out, order)
    requires multiset(order) == multiset(seq(|out|, i requires 0 <= i < |out| => i))
    ensures Minimal(g, st, frame, Kept(out))
  {
    hide Stays, Minimal;
    var all := seq(|out|, i requires 0 <= i < |out| => i);
    forall i | 0 <= i < |out| ensures Stays(g, st, frame, out, i) {
      assert all[i] == i;
      assert i in multiset(all);
      assert i in order;
    }
    AllStay(g, st, frame, out);
  }

  /** What is left at place `k` is the last literal of the vector that holds on reset, and the only one left. */
  ghost predicate LastReset(g: Circuit, out0: seq<Slot>, out: seq<Slot>, k: nat) {
    && k < |out| && out[k].SLit? && SatisfiesReset(g, Not(out[k].l)) && ResetCount(g, out) == 1
    && forall m :: k < m < |out0| && out0[m].SLit? ==> !SatisfiesReset(g, Not(out0[m].l))
  }

  /** Of the literals outside the core at most the last one that holds on reset is left, and only if no other one does. */
  ghost predicate Tight(g: Circuit, core: set<LLit>, out0: seq<Slot>, out: seq<Slot>) {
    && |out| == |out0|
    && (forall k :: 0 <= k < |out| && out0[k].SLit? && out0[k].l in core ==> out[k] == out0[k])
    && forall k :: 0 <= k < |out| && out[k].SLit? && out[k].l !in core ==> LastReset(g, out0, out, k)
  }

  ghost predicate TightWithin(g: Circuit, core: set<LLit>, tried: seq<Slot>, out: seq<Slot>) {
    core <= Lits(Literals(tried)) && Tight(g, core, tried, out)
  }

  /** One trial at place `i`: nothing happens because the literal stays, or it goes, and with it what the core leaves out. */
  ghost predicate Trial(g: Circuit, st: Store, frame: int, before: seq<Slot>, after: seq<Slot>, i: nat) {
    if after == before then Stays(g, st, frame, before, i)
    else
      && i < |before| && before[i].SLit? && !(SatisfiesReset(g, Not(before[i].l)) && ResetCount(g, before) == 1)
      && RelativelyInductive(g, st, frame, Kept(after))
      && var tried := before[i := STrue]; exists core :: TightWithin(g, core, tried, after)
  }

  ghost predicate Trials(g: Circuit, st: Store, frame: int, trace: seq<seq<Slot>>, order: seq<nat>) {
    |trace| == |order| + 1 && forall j :: 0 <= j < |order| ==> Trial(g, st, frame, trace[j], trace[j + 1], order[j])
  }

  /** The "out" vector of a clause. */
  function Full(c: Clause): seq<Slot> { seq(|c|, i requires 0 <= i < |c| => SLit(Not(c[i]))) }

  /** `c` is what trying the literals of `c0` one by one leaves, in the order that the priorities `p` give. */
  ghost predicate TriedInOrder(g: Circuit, st: Store, frame: int, p: seq<nat>, c0: Clause, c: Clause) {
    exists order, trace: seq<seq<Slot>> ::
      && Rotated(p, order) && Trials(g, st, frame, trace, order)
      && trace[0] == Full(c0) && c == Kept(trace[|order|])
  }

  lemma StartTrials(g: Circuit, st: Store, frame: int, out: seq<Slot>, order: seq<nat>)
    ensures Trials(g, st, frame, [out], order[..0])
  {
  }

  lemma NextTrial(g: Circuit, st: Store, frame: int, trace: seq<seq<Slot>>, order: seq<nat>, j: nat, out: seq<Slot>)
    requires j < |order| && Trials(g, st, frame, trace, order[..j]) && Trial(g, st, frame, trace[j], out, order[j])
    ensures Trials(g, st, frame, trace + [out], order[..j + 1]) && (trace + [out])[0] == trace[0]
  {
    hide Trial;
    var trace' := trace + [out];
    forall k | 0 <= k < j + 1 ensures Trial(g, st, frame, trace'[k], trace'[k + 1], order[..j + 1][k]) {
      if k < j { assert Trial(g, st, frame, trace[k], trace[k + 1], order[..j][k]); }
    }
  }

  lemma LastTrial(g: Circuit, st: Store, frame: int, trace: seq<seq<Slot>>, order: seq<nat>, p: seq<nat>, c0: Clause)
    requires Rotated(p, order) && Trials(g, st, frame, trace, order) && trace[0] == Full(c0)
    ensures TriedInOrder(g, st, frame, p, c0, Kept(trace[|order|]))
  {
    hide Trials, Rotated;
  }

  /** The clause without a literal. */
  function Minus(c: Clause, l: LLit): Clause {
    if c == [] then [] else Minus(c[..|c| - 1], l) + (if c[|c| - 1] == l then [] else [c[|c| - 1]])
  }

  lemma {:induction false} MinusMember(c: Clause, l: LLit)
    ensures forall m :: m in Minus(c, l) <==> m in c && m != l
  {
    if c != [] {
      MinusMember(c[..|c| - 1], l);
      assert c == c[..|c| - 1] + [c[|c| - 1]];
    }
  }

  ghost predicate OnlyReset(g: Circuit, c: Clause, l: LLit) {
    SatisfiesReset(g, l) && forall m :: m in c && SatisfiesReset(g, m) ==> m == l
  }

  /** No literal can be left out: it is the only one that holds on reset, or without it some step from the frame violates
      the clause. */
  ghost predicate Minimal(g: Circuit, st: Store, frame: int, c: Clause) {
    forall l :: l in c ==> OnlyReset(g, c, l) || !Implies(g, st, frame, Minus(c, l))
  }

  lemma AllStay(g: Circuit, st: Store, frame: int, out: seq<Slot>)
    requires forall i :: 0 <= i < |out| ==> Stays(g, st, frame, out, i)
    ensures Minimal(g, st, frame, Kept(out))
  {
    hide Stays, Implies;
    forall l | l in Kept(out) ensures OnlyReset(g, Kept(out), l) || !Implies(g, st, frame, Minus(Kept(out), l)) {
      KeptMember(out, l);
      var i :| AtSlot(out, Not(l), i);
      OneStays(g, st, frame, out, i, l);
    }
  }

  lemma OneStays(g: Circuit, st: Store, frame: int, out: seq<Slot>, i: nat, l: LLit)
    requires i < |out| && Stays(g, st, frame, out, i) && out[i] == SLit(Not(l))
    ensures OnlyReset(g, Kept(out), l) || !Implies(g, st, frame, Minus(Kept(out), l))
  {
    hide FrameHolds;
    assert Not(Not(l)) == l;
    if Lost(g, st, frame, out, i) {
      var s, x :| LostBy(g, st, frame, out, i, s, x);
      MinusMember(Kept(out), l);
      forall m | m in Minus(Kept(out), l) ensures !Holds(m, Next(g, s, x)) {
        KeptMember(out, m);
        var k :| AtSlot(out, Not(m), k);
        assert k != i && Holds(out[k].l, Next(g, s, x));
      }
      assert !SatClause(Minus(Kept(out), l), Next(g, s, x));
    } else {
      forall m | m in Kept(out) && SatisfiesReset(g, m) ensures m == l {
        KeptMember(out, m);
        var k :| AtSlot(out, Not(m), k);
        assert Not(Not(m)) == m;
        if k != i { TwoResets(g, out, i, k); }
      }
    }
  }

  lemma {:induction false} TwoResets(g: Circuit, out: seq<Slot>, i: nat, k: nat)
    requires i < |out| && k < |out| && i != k && out[i].SLit? && out[k].SLit?
    requires SatisfiesReset(g, Not(out[i].l)) && SatisfiesReset(g, Not(out[k].l))
    ensures ResetCount(g, out) >= 2
  {
    ResetCountDrop(g, out, i);
    ResetCountDrop(g, out[i := STrue], k);
  }
}
