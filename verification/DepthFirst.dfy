/** Depth-first traversal with an explicit stack on which a zero separates a gate from its pending fan-ins. */
module DepthFirst {
  import opened Nets

  /** A gate on the current path, with the fan-ins that have not been visited. */
  datatype Frame = Frame(node: nat, pend: seq<nat>)

  /** The stack as a path of gates on top of the variables pushed first. */
  datatype Stack = Stack(base: seq<nat>, frames: seq<Frame>)

  function FlatFrames(frames: seq<Frame>): seq<nat> {
    if frames == [] then []
    else FlatFrames(frames[..|frames| - 1]) + [frames[|frames| - 1].node, 0] + frames[|frames| - 1].pend
  }

  /** The stack as it is in memory. */
  function Flat(s: Stack): seq<nat> { s.base + FlatFrames(s.frames) }

  function Pending(s: Stack): seq<nat> { if s.frames == [] then s.base else s.frames[|s.frames| - 1].pend }

  /** The top variable taken off. */
  function Pop(s: Stack): Stack
    requires Pending(s) != []
  {
    var p := Pending(s)[..|Pending(s)| - 1];
    if s.frames == [] then s.(base := p)
    else s.(frames := s.frames[..|s.frames| - 1] + [Frame(s.frames[|s.frames| - 1].node, p)])
  }

  /** The top variable becomes the end of the path, with its fan-ins pending. */
  function Open(s: Stack, kids: seq<nat>): Stack
    requires Pending(s) != []
  {
    var p := Pop(s);
    p.(frames := p.frames + [Frame(Pending(s)[|Pending(s)| - 1], kids)])
  }

  /** The end of the path is left. */
  function Close(s: Stack): Stack
    requires s.frames != []
  {
    s.(frames := s.frames[..|s.frames| - 1])
  }

  lemma FlatPop(s: Stack)
    requires Pending(s) != []
    ensures var p := Pending(s); Flat(s) == Flat(Pop(s)) + [p[|p| - 1]]
  {
    var p := Pending(s);
    assert p == p[..|p| - 1] + [p[|p| - 1]];
    if s.frames != [] {
      var n := |s.frames| - 1;
      assert Pop(s).frames[..n] == s.frames[..n];
    }
  }

  lemma FlatOpen(s: Stack, kids: seq<nat>)
    requires Pending(s) != []
    ensures Flat(Open(s, kids)) == Flat(s) + [0] + kids
  {
    FlatPop(s);
    var o, p := Open(s, kids), Pop(s);
    assert o.frames[..|o.frames| - 1] == p.frames;
  }

  lemma FlatClose(s: Stack)
    requires s.frames != [] && Pending(s) == []
    ensures Flat(s) == Flat(Close(s)) + [s.frames[|s.frames| - 1].node, 0]
  {
  }

  lemma FlatEmpty(s: Stack)
    requires Pending(s) == [] && s.frames == []
    ensures Flat(s) == []
  {
  }

  // ---------- the invariant of the traversal ----------

  /** Finished gates in the order in which they were finished: fan-ins before the gates that use them. */
  ghost predicate Finished(g: Net, done: seq<nat>) {
    && (forall j, k :: 0 <= j < k < |done| ==> done[j] != done[k])
    && forall k :: 0 <= k < |done| ==> IsAnd(g, done[k]) && forall u: nat :: Kid(g, done[k], u) && IsAnd(g, u) ==> u in done[..k]
  }

  ghost predicate OnPath(s: Stack, v: nat) { exists k :: 0 <= k < |s.frames| && s.frames[k].node == v }

  /** Every gate among the fan-ins of frame `k` is finished, pending, or next on the path. */
  ghost predicate Accounted(g: Net, s: Stack, done: seq<nat>, k: nat)
    requires k < |s.frames|
  {
    forall u: nat :: Kid(g, s.frames[k].node, u) && IsAnd(g, u) ==>
      u in done || u in s.frames[k].pend || (k + 1 < |s.frames| && s.frames[k + 1].node == u)
  }

  ghost predicate Linked(g: Net, s: Stack) {
    && (forall u :: u in s.base ==> u != 0)
    && (forall k :: 0 <= k < |s.frames| ==> forall u :: u in s.frames[k].pend ==> u != 0 && Kid(g, s.frames[k].node, u))
    && forall k :: 0 <= k < |s.frames| - 1 ==> Kid(g, s.frames[k].node, s.frames[k + 1].node)
  }

  /** `on` marks exactly the gates on the path, which are not finished. */
  ghost predicate PathOk(g: Net, s: Stack, on: seq<bool>, done: seq<nat>) {
    && |on| == |g.types|
    && (forall v: nat :: v < |on| ==> (on[v] <==> OnPath(s, v)))
    && (forall k :: 0 <= k < |s.frames| ==> IsAnd(g, s.frames[k].node) && s.frames[k].node !in done)
    && forall j, k :: 0 <= j < k < |s.frames| ==> s.frames[j].node != s.frames[k].node
  }

  ghost predicate Walk(g: Net, s: Stack, on: seq<bool>, done: seq<nat>) {
    && Finished(g, done) && Linked(g, s) && PathOk(g, s, on, done)
    && forall k :: 0 <= k < |s.frames| ==> Accounted(g, s, done, k)
  }

  lemma StartWalk(g: Net, on: seq<bool>, done: seq<nat>, base: seq<nat>)
    requires Finished(g, done) && |on| == |g.types| && (forall v: nat :: v < |on| ==> !on[v]) && forall u :: u in base ==> u != 0
    ensures Walk(g, Stack(base, []), on, done)
  {
  }

  /** Popping changes no node of the path, and only the last list of pending variables. */
  lemma PopFrames(s: Stack)
    requires Pending(s) != []
    ensures var r := Pop(s); |r.frames| == |s.frames| && forall k :: 0 <= k < |r.frames| ==> r.frames[k].node == s.frames[k].node
    ensures var r := Pop(s); forall u :: u in r.base ==> u in s.base
    ensures var r := Pop(s); forall k :: 0 <= k < |r.frames| - 1 ==> r.frames[k] == s.frames[k]
    ensures var r := Pop(s); forall k :: 0 <= k < |r.frames| ==> forall u :: u in r.frames[k].pend ==> u in s.frames[k].pend
    ensures var r, p := Pop(s), Pending(s);
            forall k :: 0 <= k < |r.frames| ==> forall u :: u in s.frames[k].pend && u != p[|p| - 1] ==> u in r.frames[k].pend
  {
    var p := Pending(s);
    assert forall u :: u in p <==> u in p[..|p| - 1] || u == p[|p| - 1];
  }

  lemma PopLinked(g: Net, s: Stack)
    requires Linked(g, s) && Pending(s) != []
    ensures Linked(g, Pop(s))
  {
    hide Kid, Pop;
    PopFrames(s);
  }

  lemma SamePath(g: Net, s: Stack, r: Stack, on: seq<bool>, done: seq<nat>)
    requires PathOk(g, s, on, done) && |r.frames| == |s.frames|
    requires forall k :: 0 <= k < |r.frames| ==> r.frames[k].node == s.frames[k].node
    ensures PathOk(g, r, on, done)
  {
    hide IsAnd;
    forall v: nat ensures OnPath(r, v) <==> OnPath(s, v) {
      if OnPath(s, v) { var k :| 0 <= k < |s.frames| && s.frames[k].node == v; assert r.frames[k].node == v; }
      if OnPath(r, v) { var k :| 0 <= k < |r.frames| && r.frames[k].node == v; assert s.frames[k].node == v; }
    }
  }

  /** A pending variable that is no gate, or finished, is dropped. */
  lemma PopWalk(g: Net, s: Stack, on: seq<bool>, done: seq<nat>)
    requires Walk(g, s, on, done) && Pending(s) != []
    requires var u := Pending(s)[|Pending(s)| - 1]; !IsAnd(g, u) || u in done
    ensures Walk(g, Pop(s), on, done)
  {
    hide IsAnd, Kid, Linked, PathOk, Finished, Pop;
    var r := Pop(s);
    PopFrames(s);
    PopLinked(g, s);
    SamePath(g, s, r, on, done);
    forall k | 0 <= k < |r.frames| ensures Accounted(g, r, done, k) { assert Accounted(g, s, done, k); }
  }

  /** A gate that is neither finished nor on the path is entered; `kids` are its fan-ins but for some that are no gates. */
  lemma OpenWalk(g: Net, s: Stack, on: seq<bool>, done: seq<nat>, kids: seq<nat>)
    requires Walk(g, s, on, done) && Pending(s) != []
    requires var v := Pending(s)[|Pending(s)| - 1]; v < |on| && IsAnd(g, v) && v !in done && !on[v]
    requires var v := Pending(s)[|Pending(s)| - 1]; forall u :: u in kids ==> u != 0 && Kid(g, v, u)
    requires var v := Pending(s)[|Pending(s)| - 1]; forall u: nat :: Kid(g, v, u) && IsAnd(g, u) ==> u in kids
    ensures var v := Pending(s)[|Pending(s)| - 1]; Walk(g, Open(s, kids), on[v := true], done)
  {
    hide IsAnd, Kid, Finished, Pop;
    var v := Pending(s)[|Pending(s)| - 1];
    var p, o, n := Pop(s), Open(s, kids), |s.frames|;
    PopFrames(s);
    PopLinked(g, s);
    assert o.frames[n] == Frame(v, kids) && forall k :: 0 <= k < n ==> o.frames[k] == p.frames[k];
    OpenPath(g, s, o, on, done, v);
    forall k | 0 <= k < |o.frames| ensures Accounted(g, o, done, k) {
      if k < n { assert Accounted(g, s, done, k); }
    }
    if n > 0 { assert v in s.frames[n - 1].pend; }
  }

  lemma OpenPath(g: Net, s: Stack, o: Stack, on: seq<bool>, done: seq<nat>, v: nat)
    requires PathOk(g, s, on, done) && v < |on| && IsAnd(g, v) && v !in done && !on[v] && |o.frames| == |s.frames| + 1
    requires o.frames[|s.frames|].node == v && forall k :: 0 <= k < |s.frames| ==> o.frames[k].node == s.frames[k].node
    ensures PathOk(g, o, on[v := true], done)
  {
    hide IsAnd;
    forall u: nat ensures OnPath(o, u) <==> OnPath(s, u) || u == v {
      if OnPath(s, u) { var k :| 0 <= k < |s.frames| && s.frames[k].node == u; assert o.frames[k].node == u; }
      if OnPath(o, u) { var k :| 0 <= k < |o.frames| && o.frames[k].node == u; if k < |s.frames| { assert s.frames[k].node == u; } }
    }
    forall k | 0 <= k < |s.frames| ensures s.frames[k].node != v { assert OnPath(s, s.frames[k].node); }
  }

  /** A gate without pending fan-ins is finished. */
  lemma CloseWalk(g: Net, s: Stack, on: seq<bool>, done: seq<nat>)
    requires Walk(g, s, on, done) && s.frames != [] && Pending(s) == []
    ensures var v := s.frames[|s.frames| - 1].node; v < |on| && on[v] && Walk(g, Close(s), on[v := false], done + [v])
  {
    hide Kid, IsAnd, Finished;
    var n := |s.frames| - 1;
    var v := s.frames[n].node;
    var c, all := Close(s), done + [v];
    assert Accounted(g, s, done, n);
    ClosePath(g, s, on, done);
    OneMoreFinished(g, done, v);
    forall k | 0 <= k < |c.frames| ensures Accounted(g, c, all, k) { assert Accounted(g, s, done, k); }
  }

  lemma OneMoreFinished(g: Net, done: seq<nat>, v: nat)
    requires Finished(g, done) && IsAnd(g, v) && v !in done && forall u: nat :: Kid(g, v, u) && IsAnd(g, u) ==> u in done
    ensures Finished(g, done + [v])
  {
    hide Kid, IsAnd;
    var all := done + [v];
    forall k | 0 <= k < |all| ensures forall u: nat :: Kid(g, all[k], u) && IsAnd(g, u) ==> u in all[..k] {
      assert all[..k] == if k < |done| then done[..k] else done;
    }
  }

  lemma ClosePath(g: Net, s: Stack, on: seq<bool>, done: seq<nat>)
    requires PathOk(g, s, on, done) && s.frames != []
    ensures var v := s.frames[|s.frames| - 1].node; v < |on| && on[v] && PathOk(g, Close(s), on[v := false], done + [v])
  {
    hide IsAnd;
    var n := |s.frames| - 1;
    var v, c := s.frames[n].node, Close(s);
    InRange(g, v, s, n, on, done);
    assert OnPath(s, v);
    forall u: nat ensures OnPath(c, u) <==> OnPath(s, u) && u != v {
      if OnPath(s, u) { var k :| 0 <= k < |s.frames| && s.frames[k].node == u; if k < n { assert c.frames[k].node == u; } }
      if OnPath(c, u) { var k :| 0 <= k < |c.frames| && c.frames[k].node == u; assert s.frames[k].node == u; }
    }
  }

  lemma InRange(g: Net, v: nat, s: Stack, n: nat, on: seq<bool>, done: seq<nat>)
    requires PathOk(g, s, on, done) && n < |s.frames| && s.frames[n].node == v
    ensures v < |on|
  {
  }

  // ---------- cycles ----------

  lemma {:induction false} RankFalls(g: Net, s: Stack, on: seq<bool>, done: seq<nat>, rank: seq<nat>, j: nat, k: nat)
    requires Walk(g, s, on, done) && Ranked(g, rank) && j <= k < |s.frames|
    ensures s.frames[j].node < |rank| && s.frames[k].node < |rank| && rank[s.frames[k].node] <= rank[s.frames[j].node]
  {
    hide Kid, Finished, Accounted;
    if j < k {
      RankFalls(g, s, on, done, rank, j, k - 1);
      assert Kid(g, s.frames[k - 1].node, s.frames[k - 1 + 1].node);
    }
  }

  /** A pending variable that is on the path already closes a cycle. */
  lemma CycleFound(g: Net, s: Stack, on: seq<bool>, done: seq<nat>)
    requires Walk(g, s, on, done) && Pending(s) != []
    requires var u := Pending(s)[|Pending(s)| - 1]; u < |on| && on[u]
    ensures !Acyclic(g)
  {
    hide Kid, Finished, Accounted;
    var u := Pending(s)[|Pending(s)| - 1];
    assert OnPath(s, u);
    var j :| 0 <= j < |s.frames| && s.frames[j].node == u;
    var n := |s.frames| - 1;
    assert u in s.frames[n].pend && Kid(g, s.frames[n].node, u);
    forall rank ensures !Ranked(g, rank) {
      if Ranked(g, rank) { RankFalls(g, s, on, done, rank, j, n); }
    }
  }

  ghost function Index(done: seq<nat>, v: nat): (k: nat)
    ensures k <= |done| && (v in done ==> k < |done| && done[k] == v)
  {
    if done == [] then 0 else if done[0] == v then 0 else 1 + Index(done[1..], v)
  }

  /** When all gates are finished there is no cycle. */
  lemma AllFinished(g: Net, done: seq<nat>)
    requires Finished(g, done) && forall v: nat :: IsAnd(g, v) ==> v in done
    ensures Acyclic(g)
  {
    hide Index;
    var rank := seq(|g.types|, v requires 0 <= v < |g.types| => Index(done, v));
    forall v: nat, u: nat | v < |rank| && u < |rank| && Kid(g, v, u) && IsAnd(g, u) ensures rank[u] < rank[v] {
      var k := Index(done, v);
      assert IsAnd(g, v) && done[k] == v && u in done[..k];
      var j :| 0 <= j < k && done[j] == u;
      assert done[Index(done, u)] == u;
    }
    assert Ranked(g, rank);
  }

  /** Without cycles nothing that is pending, and no fan-in of it, is on the path. */
  lemma NotOnPath(g: Net, s: Stack, on: seq<bool>, done: seq<nat>)
    requires Walk(g, s, on, done) && Pending(s) != [] && Acyclic(g)
    ensures var v := Pending(s)[|Pending(s)| - 1]; v < |on| ==> !on[v]
    ensures var v := Pending(s)[|Pending(s)| - 1]; forall u: nat :: Kid(g, v, u) && IsAnd(g, u) ==> u < |on| && !on[u] && u != v
  {
    hide Kid, Finished, Accounted, Acyclic;
    var v := Pending(s)[|Pending(s)| - 1];
    if v < |on| && on[v] { CycleFound(g, s, on, done); }
    forall u: nat | Kid(g, v, u) && IsAnd(g, u) ensures u < |on| && !on[u] && u != v {
      KidNotOnPath(g, s, on, done, u);
    }
  }

  lemma KidNotOnPath(g: Net, s: Stack, on: seq<bool>, done: seq<nat>, u: nat)
    requires Walk(g, s, on, done) && Pending(s) != [] && Acyclic(g)
    requires Kid(g, Pending(s)[|Pending(s)| - 1], u) && IsAnd(g, u)
    ensures u < |on| && !on[u] && u != Pending(s)[|Pending(s)| - 1]
  {
    hide Finished, Accounted;
    var v := Pending(s)[|Pending(s)| - 1];
    var rank :| Ranked(g, rank);
    assert rank[u] < rank[v];
    if OnPath(s, u) {
      var j :| 0 <= j < |s.frames| && s.frames[j].node == u;
      var n := |s.frames| - 1;
      assert v in s.frames[n].pend && Kid(g, s.frames[n].node, v);
      RankFalls(g, s, on, done, rank, j, n);
    }
  }
}
