/** The trail of the SAT solver: assigned literals in order, split into decision levels. */
module Trails {
  import opened Lbools
  import opened Literals

  /** `pos` gives the place of an assigned variable on the trail; `lim` the places where decision levels start. */
  datatype Trail = Trail(assigns: seq<LB>, reason: seq<int>, level: seq<nat>, pos: seq<nat>, lits: seq<Lit>, lim: seq<nat>)
  {
    function Size(): nat { |assigns| }

    function Val(l: Lit): LB { Value(assigns, l) }

    /** Where the current decision level starts. */
    function Base(): nat { if lim == [] then 0 else lim[|lim| - 1] }

    /** Where decision level 0 ends. */
    function Roots(): nat { if lim == [] then |lits| else lim[0] }
  }

  /** Place `k` of the trail belongs to decision level `level`. */
  ghost predicate LevelAt(t: Trail, k: nat, level: nat) {
    level <= |t.lim| && (level > 0 ==> t.lim[level - 1] <= k) && (level < |t.lim| ==> k < t.lim[level])
  }

  ghost predicate Sizes(t: Trail) {
    |t.reason| == |t.level| == |t.pos| == |t.assigns|
  }

  ghost predicate Listed(t: Trail)
    requires Sizes(t)
  {
    && (forall k :: 0 <= k < |t.lits| ==>
          t.lits[k].v < |t.assigns| && t.Val(t.lits[k]) == LTrue && t.pos[t.lits[k].v] == k)
    && forall v :: 0 <= v < |t.assigns| && t.assigns[v] != LUndef ==> t.pos[v] < |t.lits| && t.lits[t.pos[v]].v == v
  }

  ghost predicate Limits(t: Trail) {
    && (forall i :: 0 <= i < |t.lim| ==> t.lim[i] <= |t.lits|)
    && forall i, j :: 0 <= i < j < |t.lim| ==> t.lim[i] <= t.lim[j]
  }

  ghost predicate Levels(t: Trail)
    requires Sizes(t) && Listed(t)
  {
    forall k :: 0 <= k < |t.lits| ==> LevelAt(t, k, t.level[t.lits[k].v])
  }

  /** The assigned variables are exactly those on the trail, each once, made true, with the level of its place. */
  ghost predicate TrailOk(t: Trail) {
    Sizes(t) && Listed(t) && Limits(t) && Levels(t)
  }

  function Enqueued(t: Trail, l: Lit, from: int): Trail
    requires Sizes(t) && l.v < t.Size()
  {
    t.(assigns := t.assigns[l.v := FromBool(!l.neg)], reason := t.reason[l.v := from], level := t.level[l.v := |t.lim|],
       pos := t.pos[l.v := |t.lits|], lits := t.lits + [l])
  }

  function NewLevel(t: Trail): Trail { t.(lim := t.lim + [|t.lits|]) }

  /** The trail after going back to the end of decision level `level`. */
  function CutTo(t: Trail, level: nat): Trail
    requires TrailOk(t) && level < |t.lim|
  {
    t.(assigns := Unassigned(t, t.lim[level]), lits := t.lits[..t.lim[level]], lim := t.lim[..level])
  }

  function Unassigned(t: Trail, from: nat): (r: seq<LB>)
    requires Sizes(t)
    ensures |r| == |t.assigns|
  {
    seq(|t.assigns|, v requires 0 <= v < |t.assigns| => if t.pos[v] >= from then LUndef else t.assigns[v])
  }

  lemma NotListed(t: Trail, l: Lit)
    requires TrailOk(t) && l.v < t.Size() && t.Val(l) == LUndef
    ensures forall k :: 0 <= k < |t.lits| ==> t.lits[k].v != l.v && t.lits[k].v < t.Size()
  {
    forall k | 0 <= k < |t.lits| ensures t.lits[k].v != l.v { assert t.Val(t.lits[k]) == LTrue; }
  }

  lemma EnqueueValues(t: Trail, l: Lit, from: int)
    requires Sizes(t) && l.v < t.Size() && t.Val(l) == LUndef
    ensures Enqueued(t, l, from).Val(l) == LTrue
    ensures forall k :: k != l && k != Neg(l) ==> Enqueued(t, l, from).Val(k) == t.Val(k)
    ensures forall k :: t.Val(k) != LUndef ==> k.v != l.v
  {
  }

  lemma EnqueueOk(t: Trail, l: Lit, from: int)
    requires TrailOk(t) && l.v < t.Size() && t.Val(l) == LUndef
    ensures TrailOk(Enqueued(t, l, from)) && Enqueued(t, l, from).Val(l) == LTrue
    ensures forall k :: k != l && k != Neg(l) ==> Enqueued(t, l, from).Val(k) == t.Val(k)
    ensures forall k :: t.Val(k) != LUndef ==> k.v != l.v
  {
    hide Value;
    var u := Enqueued(t, l, from);
    NotListed(t, l);
    EnqueueValues(t, l, from);
    assert Listed(u) by {
      forall k | 0 <= k < |u.lits| ensures u.Val(u.lits[k]) == LTrue && u.pos[u.lits[k].v] == k {
        if k < |t.lits| { assert u.lits[k] == t.lits[k] && t.Val(t.lits[k]) == LTrue; }
      }
    }
    forall k | 0 <= k < |t.lits| ensures LevelAt(u, k, u.level[u.lits[k].v]) {
      assert LevelAt(t, k, t.level[t.lits[k].v]);
    }
  }

  lemma NewLevelOk(t: Trail)
    requires TrailOk(t)
    ensures TrailOk(NewLevel(t))
  {
    forall k | 0 <= k < |t.lits| ensures LevelAt(NewLevel(t), k, t.level[t.lits[k].v]) {
      assert LevelAt(t, k, t.level[t.lits[k].v]);
    }
  }

  lemma CutOk(t: Trail, level: nat)
    requires TrailOk(t) && level < |t.lim|
    ensures TrailOk(CutTo(t, level))
  {
    var u := CutTo(t, level);
    forall k | 0 <= k < |u.lits|
      ensures u.Val(u.lits[k]) == LTrue && u.pos[u.lits[k].v] == k && LevelAt(u, k, u.level[u.lits[k].v])
    {
      assert LevelAt(t, k, t.level[t.lits[k].v]);
    }
  }

  /** A literal keeps its value when the trail is cut behind its place, and loses it otherwise. */
  lemma CutValue(t: Trail, level: nat, l: Lit)
    requires TrailOk(t) && level < |t.lim|
    ensures CutTo(t, level).Val(l) ==
            if l.v < t.Size() && t.pos[l.v] < t.lim[level] then t.Val(l) else LUndef
    ensures t.Val(l) != LUndef ==> (t.pos[l.v] < t.lim[level] <==> t.level[l.v] <= level)
  {
    if t.Val(l) != LUndef {
      var k := t.pos[l.v];
      assert LevelAt(t, k, t.level[t.lits[k].v]);
      if t.level[l.v] > level + 1 { assert t.lim[level] <= t.lim[t.level[l.v] - 1]; }
      if t.level[l.v] < level { assert t.lim[t.level[l.v]] <= t.lim[level]; }
    }
  }

  /** Levels do not decrease along the trail. */
  lemma LevelsAscend(t: Trail, j: nat, k: nat)
    requires TrailOk(t) && j <= k < |t.lits|
    ensures t.level[t.lits[j].v] <= t.level[t.lits[k].v] <= |t.lim|
  {
    var a, b := t.level[t.lits[j].v], t.level[t.lits[k].v];
    assert LevelAt(t, j, a) && LevelAt(t, k, b);
  }

  /** The literals of the current level are those from `Base` on. */
  lemma CurrentLevel(t: Trail, l: Lit)
    requires TrailOk(t) && t.Val(l) != LUndef
    ensures t.level[l.v] <= |t.lim| && (t.pos[l.v] >= t.Base() <==> t.level[l.v] == |t.lim|)
    ensures t.pos[l.v] < t.Roots() <==> t.level[l.v] == 0
  {
    var k := t.pos[l.v];
    var a := t.level[l.v];
    assert LevelAt(t, k, t.level[t.lits[k].v]);
    if a > 0 { assert t.lim[0] <= t.lim[a - 1]; }
    if a < |t.lim| { assert t.lim[a] <= t.lim[|t.lim| - 1]; }
  }

  ghost function VarsOf(lits: seq<Lit>): set<nat> {
    set l | l in lits :: l.v
  }

  lemma {:induction false} VarsCount(lits: seq<Lit>)
    requires forall j, k :: 0 <= j < k < |lits| ==> lits[j].v != lits[k].v
    ensures |VarsOf(lits)| == |lits|
  {
    if lits != [] {
      var n := |lits| - 1;
      VarsCount(lits[..n]);
      assert lits == lits[..n] + [lits[n]];
      assert VarsOf(lits) == VarsOf(lits[..n]) + {lits[n].v};
    }
  }

  lemma {:induction false} BoundedCount(s: set<nat>, n: nat)
    requires forall v :: v in s ==> v < n
    ensures |s| <= n
  {
    if n > 0 {
      BoundedCount(s - {n - 1}, n - 1);
      assert s <= s - {n - 1} + {n - 1};
    } else {
      assert s == {};
    }
  }

  /** There are no more literals on the trail than variables. */
  lemma TrailBound(t: Trail)
    requires TrailOk(t)
    ensures |t.lits| <= t.Size()
  {
    VarsCount(t.lits);
    BoundedCount(VarsOf(t.lits), t.Size());
  }
}
