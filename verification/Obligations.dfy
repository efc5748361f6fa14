/** Proof-obligation cubes with their reference counts, and the counter-example a chain of cubes stands for. */
module Obligations {
  import opened Aigs
  import opened Frames

  /** Every state of cube `q` steps under input `x` into cube `p`. */
  ghost predicate StepsInto(g: Circuit, q: seq<LLit>, x: seq<bool>, p: seq<LLit>) {
    IsInput(g, x) && forall s :: IsState(g, s) && InCube(q, s) ==> InCube(p, Next(g, s, x))
  }

  ghost predicate AllBad(g: Circuit, prop: seq<nat>, q: seq<LLit>, x: seq<bool>) {
    forall s :: IsState(g, s) && InCube(q, s) ==> Bad(g, prop, s, x)
  }

  ghost predicate HasReset(g: Circuit, q: seq<LLit>) {
    exists s :: IsReset(g, s) && InCube(q, s)
  }

  class TCube {
    var frame: nat
    var refs: nat
    const parent: TCube?
    const assignment: seq<LLit>
    const inputs: seq<bool>
    ghost const rank: nat

    constructor (frame: nat, assignment: seq<LLit>, inputs: seq<bool>, parent: TCube?)
      ensures this.frame == frame && refs == 0
      ensures this.assignment == assignment && this.inputs == inputs && this.parent == parent
      ensures rank == if parent == null then 0 else parent.rank + 1
    {
      this.frame, refs := frame, 0;
      this.parent, this.assignment, this.inputs := parent, assignment, inputs;
      rank := if parent == null then 0 else parent.rank + 1;
    }

    /** Every state of the cube runs along the chain of parents, under the recorded inputs, into a bad state. */
    ghost predicate Chain(g: Circuit, prop: seq<nat>)
      decreases rank
    {
      && LitsOk(g, assignment) && IsInput(g, inputs)
      && (parent == null ==> AllBad(g, prop, assignment, inputs))
      && (parent != null ==> parent.rank < rank && StepsInto(g, assignment, inputs, parent.assignment) && parent.Chain(g, prop))
    }

    /** A run that follows the chain from a state of the cube. */
    lemma Follow(g: Circuit, prop: seq<nat>, s: State) returns (trace: seq<State>, xs: seq<seq<bool>>)
      requires Chain(g, prop) && IsState(g, s) && InCube(assignment, s)
      ensures IsPath(g, trace, xs) && trace[0] == s && Bad(g, prop, trace[|trace| - 1], xs[|xs| - 1])
      decreases rank
    {
      if parent == null {
        trace, xs := [s], [inputs];
      } else {
        var t, ys := parent.Follow(g, prop, Next(g, s, inputs));
        PathCons(g, s, inputs, t, ys);
        trace, xs := [s] + t, [inputs] + ys;
      }
    }

    /** Soundness of a SAT answer: a cube that contains a reset state heads a real execution into a bad state. */
    lemma CounterExample(g: Circuit, prop: seq<nat>) returns (trace: seq<State>, xs: seq<seq<bool>>)
      requires Chain(g, prop) && HasReset(g, assignment)
      ensures IsRun(g, trace, xs) && Bad(g, prop, trace[|trace| - 1], xs[|xs| - 1])
    {
      var s :| IsReset(g, s) && InCube(assignment, s);
      trace, xs := Follow(g, prop, s);
    }
  }

  // ---------- reference counts ----------

  ghost function Children(live: set<TCube>, c: TCube): set<TCube> {
    set d | d in live && d.parent == c
  }

  /** `live` are the cubes that have not been deleted, `owed` the references held from outside: queue entries, the
      caller's hold on the root, a cube in hand. Every count is exact and positive. */
  ghost predicate Counted(live: set<TCube>, owed: multiset<TCube>)
    reads live`refs
  {
    && (forall c :: c in owed ==> c in live)
    && (forall c :: c in live && c.parent != null ==> c.parent in live && c.parent.rank < c.rank)
    && forall c :: c in live ==> c.refs > 0 && c.refs == owed[c] + |Children(live, c)|
  }

  lemma NoChildren(live: set<TCube>, t: TCube)
    requires t !in live && forall c :: c in live && c.parent != null ==> c.parent in live
    ensures Children(live, t) == {}
  {
  }

  lemma ChildrenWithout(live: set<TCube>, c: TCube, d: TCube)
    requires c in live
    ensures |Children(live, d)| == |Children(live - {c}, d)| + (if c.parent == d then 1 else 0)
  {
    var all, less := Children(live, d), Children(live - {c}, d);
    if c.parent == d { assert all == less + {c}; } else { assert all == less; }
  }

  lemma ChildrenWith(live: set<TCube>, c: TCube, d: TCube)
    requires c !in live
    ensures |Children(live + {c}, d)| == |Children(live, d)| + (if c.parent == d then 1 else 0)
  {
    ChildrenWithout(live + {c}, c, d);
    assert live + {c} - {c} == live;
  }

  lemma {:induction false} HighestRank(live: set<TCube>) returns (m: TCube)
    requires live != {}
    ensures m in live && forall c :: c in live ==> c.rank <= m.rank
    decreases |live|
  {
    m :| m in live;
    if live != {m} {
      var n := HighestRank(live - {m});
      if n.rank > m.rank { m := n; }
      assert forall c :: c in live ==> c == m || c in live - {m} || c.rank <= m.rank;
    }
  }

  /** When only the root is held from outside, no other cube is left. */
  lemma OnlyRootLeft(live: set<TCube>, root: TCube)
    requires Counted(live, multiset{root}) && root.parent == null
    ensures live == {root}
  {
    var rest := live - {root};
    if rest != {} {
      var m := HighestRank(rest);
      forall d | d in live ensures d.parent != m {
        if d in rest { assert d.rank <= m.rank; }
      }
      assert false;
    }
    assert root in multiset{root};
  }

  /** Taking a cube whose last reference is gone out of the live set leaves one reference to its parent to give up. */
  lemma Detach(live: set<TCube>, owed: multiset<TCube>, c: TCube)
    requires c in live && c in owed && c.refs == 0 && owed[c] == 1 && Children(live, c) == {}
    requires forall d :: d in owed ==> d in live
    requires forall d :: d in live && d.parent != null ==> d.parent in live && d.parent.rank < d.rank
    requires forall d :: d in live && d != c ==> d.refs > 0 && d.refs == owed[d] + |Children(live, d)|
    ensures var less := owed - multiset{c};
            Counted(live - {c}, if c.parent == null then less else less + multiset{c.parent})
  {
    var rest := live - {c};
    var less := owed - multiset{c};
    var owed' := if c.parent == null then less else less + multiset{c.parent};
    forall d | d in rest ensures d.refs > 0 && d.refs == owed'[d] + |Children(rest, d)| {
      ChildrenWithout(live, c, d);
    }
    forall d | d in rest && d.parent != null ensures d.parent in rest {
      assert d !in Children(live, c);
    }
  }

  /** The count of every live cube, that of `c` being `off` too low. */
  ghost predicate CountedBut(live: set<TCube>, owed: multiset<TCube>, c: TCube, off: nat)
    reads live`refs
  {
    && c in live && c in owed
    && (forall d :: d in owed ==> d in live)
    && (forall d :: d in live && d.parent != null ==> d.parent in live && d.parent.rank < d.rank)
    && forall d :: d in live ==>
         if d == c then d.refs + off == owed[d] + |Children(live, d)| else d.refs > 0 && d.refs == owed[d] + |Children(live, d)|
  }

  lemma OwedLive(live: set<TCube>, owed: multiset<TCube>)
    requires Counted(live, owed)
    ensures forall c :: c in owed ==> c in live
  {
  }

  lemma CountedStart(live: set<TCube>, owed: multiset<TCube>, c: TCube)
    requires Counted(live, owed) && c in owed
    ensures CountedBut(live, owed, c, 0) && c in live && c.refs > 0
    ensures c.parent != null ==> c.parent in live && c.parent.rank < c.rank
  {
  }

  /** After taking one reference off a count, either it is still positive or the cube leaves the live set. */
  lemma OneLess(live: set<TCube>, owed: multiset<TCube>, c: TCube)
    requires CountedBut(live, owed, c, 1)
    ensures c.refs > 0 ==> Counted(live, owed - multiset{c})
    ensures c.refs == 0 ==>
      Counted(live - {c}, if c.parent == null then owed - multiset{c} else owed - multiset{c} + multiset{c.parent})
  {
    if c.refs == 0 {
      assert owed[c] == 1 && |Children(live, c)| == 0;
      Detach(live, owed, c);
    }
  }

  lemma CountsNow(live: set<TCube>, owed: multiset<TCube>)
    requires Counted(live, owed)
    ensures forall c :: c in owed ==> c in live
    ensures forall c :: c in live && c.parent != null ==> c.parent in live && c.parent.rank < c.rank
    ensures forall c :: c in live ==> c.refs > 0 && c.refs == owed[c] + |Children(live, c)|
  {
  }

  /** A new cube, held once, whose parent has been given one more reference. */
  lemma Adopt(live: set<TCube>, owed: multiset<TCube>, t: TCube)
    requires t !in live && (forall c :: c in owed ==> c in live) && t.refs == 1
    requires t.parent != null ==> t.parent in live && t.parent.rank < t.rank
    requires forall c :: c in live && c.parent != null ==> c.parent in live && c.parent.rank < c.rank
    requires forall c :: c in live ==> c.refs > 0 && c.refs == owed[c] + |Children(live, c)| + (if t.parent == c then 1 else 0)
    ensures Counted(live + {t}, owed + multiset{t})
  {
    forall c | c in live + {t} ensures c.refs > 0 && c.refs == (owed + multiset{t})[c] + |Children(live + {t}, c)| {
      ChildrenWith(live, t, c);
    }
    NoChildren(live, t);
    ChildrenWith(live, t, t);
  }

  class TCubePool {
    var remaining: int
    ghost var live: set<TCube>

    ghost predicate Valid(owed: multiset<TCube>)
      reads this, live`refs
    {
      Counted(live, owed) && remaining == |live|
    }

    constructor ()
      ensures Valid(multiset{}) && live == {}
    {
      remaining, live := 0, {};
    }

    /** Allocates a cube, held once by the caller; the parent gets a reference. */
    method NewCube(frame: nat, assignment: seq<LLit>, inputs: seq<bool>, parent: TCube?, ghost owed: multiset<TCube>)
      returns (t: TCube)
      requires Valid(owed) && (parent != null ==> parent in live)
      modifies this, live`refs
      ensures fresh(t) && t.frame == frame && t.assignment == assignment && t.inputs == inputs && t.parent == parent
      ensures t.rank == if parent == null then 0 else parent.rank + 1
      ensures live == old(live) + {t} && t !in old(live) && Valid(owed + multiset{t})
    {
      hide Counted;
      CountsNow(live, owed);
      t := new TCube(frame, assignment, inputs, parent);
      t.refs := 1;
      if parent != null {
        parent.refs := parent.refs + 1;
      }
      remaining := remaining + 1;
      Adopt(live, owed, t);
      live := live + {t};
    }

    /** Gives up one reference to `c`. When it was the last one, the parent is released in turn and deleted if that
        was its last one; `c` itself is left to the caller. */
    method Deref(c: TCube, ghost owed: multiset<TCube>) returns (alive: bool)
      requires c in owed && Counted(live, owed)
      modifies this, live`refs
      ensures live <= old(live) && Counted(live, owed - multiset{c})
      ensures if alive then c in live else c !in live && c.refs == 0
      ensures forall d :: d in old(live) && d !in live ==> d.refs == 0
      ensures remaining - |live| == old(remaining - |live|) + (if alive then 0 else 1)
      decreases c.rank
    {
      hide Counted, Children;
      ghost var less := owed - multiset{c};
      CountedStart(live, owed, c);
      c.refs := c.refs - 1;
      OneLess(live, owed, c);
      if c.refs == 0 {
        live := live - {c};
        if c.parent != null {
          assert c.parent in less + multiset{c.parent};
          var r := Deref(c.parent, less + multiset{c.parent});
          assert less + multiset{c.parent} - multiset{c.parent} == less;
          if !r {
            remaining := remaining - 1;
          }
        }
      }
      alive := c.refs > 0;
    }

    /** Gives up one reference and deletes the cube if it was the last. */
    method Release(c: TCube, ghost owed: multiset<TCube>) returns (alive: bool)
      requires c in owed && Valid(owed)
      modifies this, live`refs
      ensures live <= old(live) && Valid(owed - multiset{c}) && (alive <==> c in live)
      ensures forall d :: d in old(live) && d !in live ==> d.refs == 0
    {
      alive := Deref(c, owed);
      if !alive {
        remaining := remaining - 1;
      }
    }
  }
}
