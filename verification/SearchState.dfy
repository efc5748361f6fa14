/** The state of the search: assumptions on the first decision levels, and the measure that every step makes smaller. */
module SearchState {
  import opened Lbools
  import opened Literals
  import opened Trails

  // ---------- assumptions ----------

  /** Every assumption whose level has been opened is true since that level. */
  ghost predicate AssumptionsTrue(t: Trail, hyps: seq<Lit>)
    requires Sizes(t)
  {
    forall i :: 0 <= i < |t.lim| && i < |hyps| ==>
      hyps[i].v < t.Size() && t.Val(hyps[i]) == LTrue && t.level[hyps[i].v] <= i + 1
  }

  /** The decisions on the first levels are the assumptions. */
  ghost predicate DecisionsAssumed(t: Trail, hyps: seq<Lit>)
    requires Sizes(t)
  {
    forall k :: 0 <= k < |t.lits| && t.lits[k].v < t.Size() && t.reason[t.lits[k].v] < 0 ==>
      0 < t.level[t.lits[k].v] <= |hyps| ==> t.lits[k] == hyps[t.level[t.lits[k].v] - 1]
  }

  /** Levels behind the assumptions have at least one literal each. */
  ghost predicate LevelsFilled(t: Trail, h: nat) {
    (forall i :: h <= i < |t.lim| ==> t.lim[i] >= i - h) && |t.lits| >= |t.lim| - h
  }

  ghost predicate Assumed(t: Trail, hyps: seq<Lit>) {
    TrailOk(t) && AssumptionsTrue(t, hyps) && DecisionsAssumed(t, hyps) && LevelsFilled(t, |hyps|)
  }

  lemma AssumedStart(t: Trail, hyps: seq<Lit>)
    requires TrailOk(t) && t.lim == []
    ensures Assumed(t, hyps)
  {
    forall k | 0 <= k < |t.lits| ensures t.level[t.lits[k].v] == 0 { assert LevelAt(t, k, t.level[t.lits[k].v]); }
  }

  /** An assumption that already holds gets a level of its own. */
  lemma AssumedDummy(t: Trail, hyps: seq<Lit>)
    requires Assumed(t, hyps) && |t.lim| < |hyps| && hyps[|t.lim|].v < t.Size() && t.Val(hyps[|t.lim|]) == LTrue
    ensures Assumed(NewLevel(t), hyps)
  {
    NewLevelOk(t);
    CurrentLevel(t, hyps[|t.lim|]);
  }

  /** The next decision: the assumption of its level, or any literal behind the assumptions. */
  lemma AssumedDecide(t: Trail, hyps: seq<Lit>, l: Lit)
    requires Assumed(t, hyps) && l.v < t.Size() && t.Val(l) == LUndef && (|t.lim| < |hyps| ==> l == hyps[|t.lim|])
    ensures TrailOk(NewLevel(t)) && Assumed(Enqueued(NewLevel(t), l, -1), hyps)
  {
    hide Listed, Limits, Levels;
    NewLevelOk(t);
    var n := NewLevel(t);
    EnqueueOk(n, l, -1);
    NotListed(n, l);
    var u := Enqueued(n, l, -1);
    forall i | 0 <= i < |u.lim| && i < |hyps|
      ensures hyps[i].v < u.Size() && u.Val(hyps[i]) == LTrue && u.level[hyps[i].v] <= i + 1
    {
      if i < |t.lim| { EnqueueValues(n, l, -1); }
    }
    forall k | 0 <= k < |u.lits| && u.reason[u.lits[k].v] < 0 && 0 < u.level[u.lits[k].v] <= |hyps|
      ensures u.lits[k] == hyps[u.level[u.lits[k].v] - 1]
    {
      if k < |t.lits| { assert u.lits[k] == t.lits[k] && u.lits[k].v != l.v; }
    }
  }

  /** Going back and enqueueing a literal that is implied, or fixed on level 0. */
  lemma AssumedBack(t: Trail, hyps: seq<Lit>, back: nat, l: Lit, from: int)
    requires Assumed(t, hyps) && back < |t.lim| && l.v < t.Size() && (from >= 0 || back == 0)
    requires CutTo(t, back).Val(l) == LUndef
    ensures TrailOk(CutTo(t, back)) && Assumed(Enqueued(CutTo(t, back), l, from), hyps)
  {
    CutOk(t, back);
    var n := CutTo(t, back);
    EnqueueOk(n, l, from);
    NotListed(n, l);
    var u := Enqueued(n, l, from);
    CutAssumptions(t, hyps, back);
    BackAssumptions(n, hyps, l, from);
    BackDecisions(t, hyps, back, l, from);
  }

  lemma CutAssumptions(t: Trail, hyps: seq<Lit>, back: nat)
    requires Assumed(t, hyps) && back < |t.lim|
    ensures AssumptionsTrue(CutTo(t, back), hyps)
  {
    hide Listed, Limits, Levels;
    forall i | 0 <= i < back && i < |hyps| ensures CutTo(t, back).Val(hyps[i]) == LTrue { CutValue(t, back, hyps[i]); }
  }

  lemma BackAssumptions(n: Trail, hyps: seq<Lit>, l: Lit, from: int)
    requires TrailOk(n) && AssumptionsTrue(n, hyps) && l.v < n.Size() && n.Val(l) == LUndef
    ensures AssumptionsTrue(Enqueued(n, l, from), hyps)
  {
    EnqueueValues(n, l, from);
  }

  lemma BackDecisions(t: Trail, hyps: seq<Lit>, back: nat, l: Lit, from: int)
    requires Assumed(t, hyps) && back < |t.lim| && l.v < t.Size() && (from >= 0 || back == 0)
    requires CutTo(t, back).Val(l) == LUndef && TrailOk(CutTo(t, back))
    ensures Sizes(CutTo(t, back)) && DecisionsAssumed(Enqueued(CutTo(t, back), l, from), hyps)
  {
    var n := CutTo(t, back);
    NotListed(n, l);
    var u := Enqueued(n, l, from);
    forall k | 0 <= k < |u.lits| && u.reason[u.lits[k].v] < 0 && 0 < u.level[u.lits[k].v] <= |hyps|
      ensures u.lits[k] == hyps[u.level[u.lits[k].v] - 1]
    {
      if k < |n.lits| { assert u.lits[k] == n.lits[k] == t.lits[k] && u.lits[k].v != l.v; }
    }
  }

  /** A decision on one of the first levels is the negation of nothing but an assumption. */
  lemma DecisionIsAssumption(t: Trail, hyps: seq<Lit>, k: nat)
    requires Assumed(t, hyps) && k < |t.lits| && t.reason[t.lits[k].v] < 0 && t.level[t.lits[k].v] > 0 && |t.lim| <= |hyps|
    ensures t.lits[k] in hyps
  {
    LevelsAscend(t, k, k);
    assert hyps[t.level[t.lits[k].v] - 1] in hyps;
  }

  // ---------- the measure ----------

  function Pow(b: nat, n: nat): nat { if n == 0 then 1 else b * Pow(b, n - 1) }

  /** The number with the given digits to base `b`, most significant digit first. */
  function Num(ds: seq<nat>, b: nat): nat {
    if ds == [] then 0 else ds[0] * Pow(b, |ds| - 1) + Num(ds[1..], b)
  }

  lemma MulMono(x: nat, y: nat, p: nat)
    requires x <= y
    ensures x * p <= y * p
  {
  }

  lemma Digit(x: nat, y: nat, p: nat, low: nat)
    requires x < y && low < p
    ensures x * p + low < y * p
  {
    MulMono(x + 1, y, p);
    assert (x + 1) * p == x * p + p;
  }

  lemma {:induction false} NumBound(ds: seq<nat>, b: nat)
    requires forall k :: 0 <= k < |ds| ==> ds[k] < b
    ensures Num(ds, b) < Pow(b, |ds|)
  {
    if ds != [] {
      NumBound(ds[1..], b);
      Digit(ds[0], b, Pow(b, |ds| - 1), Num(ds[1..], b));
    }
  }

  lemma {:induction false} NumLess(ds: seq<nat>, es: seq<nat>, k: nat, b: nat)
    requires |ds| == |es| && k < |ds| && ds[k] < es[k] && (forall j :: 0 <= j < k ==> ds[j] == es[j])
    requires forall j :: 0 <= j < |ds| ==> ds[j] < b
    ensures Num(ds, b) < Num(es, b)
  {
    hide Pow;
    if k == 0 {
      NumBound(ds[1..], b);
      Digit(ds[0], es[0], Pow(b, |ds| - 1), Num(ds[1..], b));
    } else {
      NumLess(ds[1..], es[1..], k - 1, b);
    }
  }

  lemma {:induction false} NumMono(ds: seq<nat>, es: seq<nat>, b: nat)
    requires |ds| == |es| && forall j :: 0 <= j < |ds| ==> ds[j] <= es[j]
    ensures Num(ds, b) <= Num(es, b)
  {
    if ds != [] {
      NumMono(ds[1..], es[1..], b);
      MulMono(ds[0], es[0], Pow(b, |ds| - 1));
    }
  }

  /** How many literals there are on decision levels up to `k`. */
  function UpToLevel(t: Trail, k: nat): nat {
    if k < |t.lim| then t.lim[k] else |t.lits|
  }

  ghost function Room(t: Trail, k: nat): nat {
    if UpToLevel(t, k) <= t.Size() then t.Size() - UpToLevel(t, k) else 0
  }

  ghost function Rooms(t: Trail, n: nat): seq<nat> {
    seq(n + 1, k requires 0 <= k <= n => Room(t, k))
  }

  /** Free places up to each decision level, read as one number: the earlier the level, the more its places weigh. */
  ghost function Remaining(t: Trail, n: nat): nat {
    Num(Rooms(t, n), t.Size() + 1)
  }

  /** How far any search can go. */
  function Bound(size: nat, n: nat): nat { Pow(size + 1, n + 1) }

  lemma RemainingBound(t: Trail, n: nat)
    ensures Remaining(t, n) < Bound(t.Size(), n)
  {
    NumBound(Rooms(t, n), t.Size() + 1);
  }

  /** Reasons do not count. */
  lemma RemainingSame(t: Trail, u: Trail, n: nat)
    requires u.lits == t.lits && u.lim == t.lim && u.Size() == t.Size()
    ensures Remaining(u, n) == Remaining(t, n)
  {
    assert Rooms(u, n) == Rooms(t, n);
  }

  /** A level that gains a literal while no earlier level loses one makes the measure smaller. */
  lemma LevelGains(t: Trail, u: Trail, n: nat, k: nat)
    requires t.Size() == u.Size() && k <= n && UpToLevel(t, k) < UpToLevel(u, k) <= u.Size()
    requires forall j :: 0 <= j < k ==> UpToLevel(t, j) == UpToLevel(u, j)
    ensures Remaining(u, n) < Remaining(t, n)
  {
    NumLess(Rooms(u, n), Rooms(t, n), k, t.Size() + 1);
  }

  lemma LevelsGrow(t: Trail, u: Trail, n: nat)
    requires t.Size() == u.Size() && forall j: nat :: UpToLevel(t, j) <= UpToLevel(u, j)
    ensures Remaining(u, n) <= Remaining(t, n)
  {
    NumMono(Rooms(u, n), Rooms(t, n), t.Size() + 1);
  }

  /** A decision uses up a place on its new level. */
  lemma DecideSmaller(t: Trail, l: Lit, n: nat)
    requires TrailOk(t) && l.v < t.Size() && t.Val(l) == LUndef && |t.lim| < n
    ensures TrailOk(NewLevel(t)) && Remaining(Enqueued(NewLevel(t), l, -1), n) < Remaining(t, n)
  {
    hide Listed, Limits, Levels;
    NewLevelOk(t);
    EnqueueOk(NewLevel(t), l, -1);
    var u := Enqueued(NewLevel(t), l, -1);
    TrailBound(u);
    LevelGains(t, u, n, |t.lim| + 1);
  }

  /** Going back gives the level reached one more literal. */
  lemma BackSmaller(t: Trail, back: nat, l: Lit, from: int, n: nat)
    requires TrailOk(t) && back < |t.lim| <= n && l.v < t.Size() && CutTo(t, back).Val(l) == LUndef
    ensures TrailOk(CutTo(t, back)) && Remaining(Enqueued(CutTo(t, back), l, from), n) < Remaining(t, n)
  {
    hide Listed, Levels;
    CutOk(t, back);
    EnqueueOk(CutTo(t, back), l, from);
    var u := Enqueued(CutTo(t, back), l, from);
    TrailBound(u);
    LevelGains(t, u, n, back);
  }
}

