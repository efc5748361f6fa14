/** Cycle detection and renumbering of and-inverter graphs, in place. */
module Reencoding {
  import opened DeltaCodec
  import opened Nets
  import opened DepthFirst
  import opened Preservation
  import opened Renumbering
  import opened Postorders

  ghost function Unmarked(mark: seq<bool>): set<nat> { set v | 0 <= v < |mark| && !mark[v] }

  lemma MarkLess(mark: seq<bool>, v: nat)
    requires v < |mark| && !mark[v]
    ensures |Unmarked(mark[v := true])| < |Unmarked(mark)|
  {
    assert Unmarked(mark) == Unmarked(mark[v := true]) + {v};
  }

  /** What lies on top of the stack. */
  lemma TopOf(g: Net, s: Stack, on: seq<bool>, done: seq<nat>)
    requires Walk(g, s, on, done)
    ensures var st, p := Flat(s), Pending(s);
            if p != [] then st != [] && st[|st| - 1] == p[|p| - 1] != 0
            else if s.frames != [] then |st| >= 2 && st[|st| - 1] == 0 && st[|st| - 2] == s.frames[|s.frames| - 1].node
            else st == []
  {
    hide Finished, PathOk, Accounted;
    var p := Pending(s);
    if p != [] {
      FlatPop(s);
      assert p[|p| - 1] in p;
    } else if s.frames != [] {
      FlatClose(s);
    } else {
      FlatEmpty(s);
    }
  }

  /** `v` has been finished, or still will be. */
  ghost predicate Promised(s: Stack, done: seq<nat>, v: nat) {
    v in done || v in s.base || (s.frames != [] && s.frames[0].node == v)
  }

  lemma PopPromise(s: Stack, done: seq<nat>, v: nat)
    requires Promised(s, done, v) && Pending(s) != [] && (Pending(s)[|Pending(s)| - 1] == v ==> v in done)
    ensures Promised(Pop(s), done, v)
  {
    var p := Pending(s);
    assert p == p[..|p| - 1] + [p[|p| - 1]];
  }

  lemma OpenPromise(s: Stack, done: seq<nat>, v: nat, kids: seq<nat>)
    requires Promised(s, done, v) && Pending(s) != []
    ensures Promised(Open(s, kids), done, v)
  {
    var p := Pending(s);
    assert p == p[..|p| - 1] + [p[|p| - 1]];
  }

  lemma ClosePromise(s: Stack, done: seq<nat>, v: nat)
    requires Promised(s, done, v) && s.frames != []
    ensures Promised(Close(s), done + [s.frames[|s.frames| - 1].node], v)
  {
  }

  /** Marked are the gates on the path and the finished ones. */
  ghost predicate MarksOk(mark: seq<bool>, on: seq<bool>, done: seq<nat>) {
    |mark| == |on| && forall v: nat :: v < |mark| ==> (mark[v] <==> on[v] || v in done)
  }

  const HALF := 0x8000_0000

  /** The 32 bits of a number read as a signed number. */
  function Signed(x: int): int {
    var y := x % WORD;
    if y >= HALF then y - WORD else y
  }

  /** How two gates are compared when they are sorted: both sides as `int`, and their difference as far as it fits. Where
      it does not fit C leaves it undefined; this is what the usual machines do. */
  function CompareLhs(a: nat, b: nat): int { Signed(Signed(a) - Signed(b)) }

  lemma CompareDifference(a: nat, b: nat)
    ensures CompareLhs(a, b) == Signed(a - b)
  {
    var i, j := (if a % WORD >= HALF then 1 else 0), (if b % WORD >= HALF then 1 else 0);
    var p, q := a / WORD + i, b / WORD + j;
    assert Signed(a) == a - WORD * p && Signed(b) == b - WORD * q;
    SameResidue(a - b, Signed(a) - Signed(b), q - p);
  }

  lemma SameResidue(x: int, y: int, k: int)
    requires y == x + WORD * k
    ensures y % WORD == x % WORD
  {
  }

  /** The comparison is right, both ways, exactly for literals less than 2^31 apart. */
  lemma CompareRight(a: nat, b: nat)
    requires a - WORD < b < a + WORD
    ensures ((CompareLhs(a, b) < 0 <==> a < b) && (CompareLhs(b, a) < 0 <==> b < a)) <==> a - HALF < b < a + HALF
  {
    CompareDifference(a, b);
    CompareDifference(b, a);
  }

  ghost predicate Comparable(ands: seq<And>) {
    forall a, b :: a in ands && b in ands ==> (CompareLhs(a.lhs, b.lhs) < 0 <==> a.lhs < b.lhs)
  }

  lemma StillComparable(a: seq<And>, b: seq<And>)
    requires Comparable(a) && forall x :: x in b <==> x in a
    ensures Comparable(b)
  {
  }

  const GATES := 0x4000_0000

  class Aiger {
    var maxvar: nat
    var inputs: seq<nat>
    var latches: seq<Latch>
    var outputs: seq<nat>
    var bad: seq<nat>
    var constraints: seq<nat>
    var justice: seq<seq<nat>>
    var fairness: seq<nat>
    var ands: seq<And>
    var types: seq<Type>
    var mark: seq<bool>
    var onstack: seq<bool>
    var error: bool

    ghost function G(): Net
      reads this`maxvar, this`inputs, this`latches, this`outputs, this`bad, this`constraints, this`justice, this`fairness,
            this`ands, this`types
    {
      Net(maxvar, inputs, latches, outputs, bad, constraints, justice, fairness, ands, types)
    }

    /** The fan-ins of a gate that are not the constant, the second one on top. */
    method Fanins(v: nat) returns (kids: seq<nat>)
      requires WellDefined(G()) && v < |types| && types[v].and
      ensures (forall u :: u in kids ==> u != 0 && Kid(G(), v, u)) && forall u: nat :: Kid(G(), v, u) && IsAnd(G(), u) ==> u in kids
    {
      var a := ands[types[v].idx];
      kids := [];
      if Var(a.rhs0) != 0 {
        kids := kids + [Var(a.rhs0)];
      }
      if Var(a.rhs1) != 0 {
        kids := kids + [Var(a.rhs1)];
      }
    }

    /** One step of the traversal from the top of the stack. */
    method Step(stack: seq<nat>, ghost s: Stack, ghost done: seq<nat>, ghost root: nat)
      returns (rest: seq<nat>, ghost r: Stack, ghost fin: seq<nat>)
      requires WellDefined(G()) && !error && Walk(G(), s, onstack, done) && MarksOk(mark, onstack, done)
      requires stack == Flat(s) != [] && Promised(s, done, root) && IsAnd(G(), root)
      modifies this`mark, this`onstack, this`error
      ensures |mark| == |old(mark)| && |onstack| == |old(onstack)|
      ensures error ==> !Acyclic(G())
      ensures !error ==> Walk(G(), r, onstack, fin) && MarksOk(mark, onstack, fin) && rest == Flat(r) && Promised(r, fin, root)
      ensures !error ==> done <= fin
      ensures !error ==> |Unmarked(mark)| < |Unmarked(old(mark))| || (mark == old(mark) && |rest| < |stack|)
    {
      hide WellDefined, Walk, Acyclic, Kid, Flat, Promised, Unmarked, Pop, Open, Close, Pending;
      TopOf(G(), s, onstack, done);
      var j := stack[|stack| - 1];
      if j != 0 {
        PendingInRange(G(), s, onstack, done);
        if j < |types| && mark[j] && onstack[j] {
          CycleFound(G(), s, onstack, done);
          error := true;
          return stack, s, done;
        }
        if !(j < |types| && types[j].and) || mark[j] {
          PopWalk(G(), s, onstack, done);
          FlatPop(s);
          PopPromise(s, done, root);
          return stack[..|stack| - 1], Pop(s), done;
        }
        var kids := Fanins(j);
        OpenWalk(G(), s, onstack, done, kids);
        FlatOpen(s, kids);
        OpenPromise(s, done, root, kids);
        MarkLess(mark, j);
        mark := mark[j := true];
        onstack := onstack[j := true];
        return stack + [0] + kids, Open(s, kids), done;
      }
      CloseWalk(G(), s, onstack, done);
      FlatClose(s);
      ClosePromise(s, done, root);
      var v := stack[|stack| - 2];
      onstack := onstack[v := false];
      return stack[..|stack| - 2], Close(s), done + [v];
    }

    /** Searches for a gate that depends on itself. */
    method CheckForCycles()
      requires WellDefined(G()) && !error && |mark| == |onstack| == |types|
      requires forall v :: 0 <= v < |types| ==> !mark[v] && !onstack[v]
      modifies this`mark, this`onstack, this`error
      ensures error <==> !Acyclic(G())
      ensures !error ==> |onstack| == |types| && forall v :: 0 <= v < |types| ==> !onstack[v]
    {
      hide WellDefined, Acyclic, Kid, Walk, Flat, Promised, Finished;
      ghost var done: seq<nat> := [];
      TableSize(G());
      NothingFinished(G());
      var i := 1;
      while i <= maxvar && !error
        invariant 1 <= i && |mark| == |onstack| == |types|
        invariant error ==> !Acyclic(G())
        invariant !error ==> Finished(G(), done) && (forall v :: 0 <= v < |types| ==> !onstack[v]) && MarksOk(mark, onstack, done)
        invariant !error ==> forall v: nat :: v < i && IsAnd(G(), v) ==> v in done
        decreases maxvar - i, !error
      {
        if types[i].and && !mark[i] {
          ghost var before := done;
          done := VisitFrom(i, done);
        }
        i := i + 1;
      }
      if !error {
        AllFinished(G(), done);
      }
    }

    /** Traverses everything below gate `i`. */
    method VisitFrom(i: nat, ghost done: seq<nat>) returns (ghost fin: seq<nat>)
      requires WellDefined(G()) && !error && i != 0 && IsAnd(G(), i) && |mark| == |onstack| == |types|
      requires Finished(G(), done) && (forall v :: 0 <= v < |types| ==> !onstack[v]) && MarksOk(mark, onstack, done)
      modifies this`mark, this`onstack, this`error
      ensures |mark| == |onstack| == |types|
      ensures error ==> !Acyclic(G())
      ensures !error ==> Finished(G(), fin) && (forall v :: 0 <= v < |types| ==> !onstack[v]) && MarksOk(mark, onstack, fin)
      ensures !error ==> i in fin && done <= fin
    {
      hide WellDefined, Acyclic, Kid, Walk, Flat, Promised, Finished, Unmarked;
      var stack := [i];
      ghost var s := Stack([i], []);
      fin := done;
      StartWalk(G(), onstack, done, [i]);
      StartPromise(i, done);
      while stack != []
        invariant |mark| == |onstack| == |types| && !error
        invariant Walk(G(), s, onstack, fin) && MarksOk(mark, onstack, fin) && stack == Flat(s)
        invariant Promised(s, fin, i) && done <= fin
        decreases |Unmarked(mark)|, |stack|
      {
        stack, s, fin := Step(stack, s, fin, i);
        if error {
          return;
        }
        PendingInRange(G(), s, onstack, fin);
      }
      EmptyStack(G(), s, onstack, fin, i);
    }

    // ---------- renumbering ----------

    /** The part of the graph that stays as it is while literals are renumbered one after the other. */
    ghost predicate Skeleton(g: Net)
      reads this`maxvar, this`ands, this`types
    {
      maxvar == g.maxvar && ands == g.ands && types == g.types
    }

    /** The fan-ins that are gates outside the current path, the smaller variable on top. */
    method GateFanins(v: nat, ghost g: Net) returns (kids: seq<nat>)
      requires WellDefined(g) && Skeleton(g) && IsAnd(g, v) && |onstack| == |types|
      ensures forall u :: u in kids ==> u != 0 && Kid(g, v, u) && IsAnd(g, u)
      ensures forall u: nat :: Kid(g, v, u) && IsAnd(g, u) && !onstack[u] ==> u in kids
      ensures (forall u: nat :: Kid(g, v, u) && IsAnd(g, u) ==> !onstack[u]) ==> kids == GateKids(g, v)
    {
      hide TypesOk;
      GateOf(g, v);
      TableSize(g);
      var a := ands[types[v].idx];
      KidsDefined(g, v, Var(a.rhs0));
      KidsDefined(g, v, Var(a.rhs1));
      KindsDisjoint(g);
      var child0, child1 := Var(a.rhs0), Var(a.rhs1);
      if child0 < child1 {
        child0, child1 := child1, child0;
      }
      kids := [];
      if child0 != 0 && !types[child0].input && !types[child0].latch && !onstack[child0] {
        kids := kids + [child0];
      }
      if child1 != 0 && !types[child1].input && !types[child1].latch && !onstack[child1] {
        kids := kids + [child1];
      }
    }

    /** One step of numbering: what is on top is skipped, entered, or gets its number. */
    method NumberStep(stack: seq<nat>, code: seq<nat>, top: nat, ghost g: Net, ghost s: Stack, ghost done: seq<nat>, ghost root: nat)
      returns (rest: seq<nat>, table: seq<nat>, next: nat, ghost r: Stack, ghost fin: seq<nat>)
      requires WellDefined(g) && Acyclic(g) && Skeleton(g) && Walk(g, s, onstack, done) && Gates(g, s) && AllNeeded(g, done)
      requires CodeTable(g, code, Order(g, done)) && top == 2 * |Order(g, done)| + 2
      requires stack == Flat(s) != [] && Promised(s, done, root)
      modifies this`onstack
      ensures Walk(g, r, onstack, fin) && Gates(g, r) && AllNeeded(g, fin) && rest == Flat(r) && Promised(r, fin, root) && done <= fin
      ensures CodeTable(g, table, Order(g, fin)) && next == 2 * |Order(g, fin)| + 2
      ensures Outcome(g, r, fin) == Outcome(g, s, done)
      ensures |Waiting(onstack, table)| < |Waiting(old(onstack), code)|
           || (|Waiting(onstack, table)| <= |Waiting(old(onstack), code)| && |rest| < |stack|)
    {
      hide Outcome, GateKids, WellDefined, Walk, Acyclic, Kid, IsAnd, AllNeeded, Flat, Promised, Waiting;
      hide Pop, Open, Close, Pending, CodeTable, Order, Gates;
      TopOf(g, s, onstack, done);
      PendingInRange(g, s, onstack, done);
      TableLength(g, code, Order(g, done));
      TableSize(g);
      var v := stack[|stack| - 1];
      if v != 0 {
        TopGate(g, s, code, done);
        NotOnPath(g, s, onstack, done);
        if code[2 * v] != 0 || onstack[v] {
          PopWalk(g, s, onstack, done);
          FlatPop(s);
          OutcomeSkip(g, s, done);
          PopPromise(s, done, root);
          PopGates(g, s);
          return stack[..|stack| - 1], code, top, Pop(s), done;
        }
        onstack := onstack[v := true];
        var kids := GateFanins(v, g);
        OpenWalk(g, s, old(onstack), done, kids);
        FlatOpen(s, kids);
        GateOf(g, v);
        OutcomeOpen(g, s, done);
        OpenPromise(s, done, root, kids);
        OpenGates(g, s, kids);
        WaitLess(old(onstack), code, v);
        return stack + [0] + kids, code, top, Open(s, kids), done;
      }
      var node := stack[|stack| - 2];
      NodeFresh(g, s, onstack, code, done);
      CloseWalk(g, s, onstack, done);
      FlatClose(s);
      OutcomeClose(g, s, done);
      ClosePromise(s, done, root);
      CloseGates(g, s, done);
      onstack := onstack[node := false];
      NewCode(g, code, Order(g, done), node);
      OrderMore(g, done, node);
      WaitSame(old(onstack), code, node, top);
      return stack[..|stack| - 2], code[2 * node := top][2 * node + 1 := top + 1], top + 2, Close(s), done + [node];
    }

    /** The new literal for `lit`; all gates it depends on get numbers first. */
    method ReencodeLit(lit: nat, code: seq<nat>, top: nat, ghost g: Net, ghost done: seq<nat>)
      returns (res: nat, table: seq<nat>, next: nat, ghost fin: seq<nat>)
      requires WellDefined(g) && Acyclic(g) && Skeleton(g) && Root(g, lit) && Defined(g, lit)
      requires |onstack| == |types| && (forall v :: 0 <= v < |types| ==> !onstack[v])
      requires Finished(g, done) && AllNeeded(g, done) && CodeTable(g, code, Order(g, done)) && top == 2 * |Order(g, done)| + 2
      modifies this`onstack
      ensures |onstack| == |types| && (forall v :: 0 <= v < |types| ==> !onstack[v])
      ensures Finished(g, fin) && AllNeeded(g, fin) && CodeTable(g, table, Order(g, fin)) && next == 2 * |Order(g, fin)| + 2 && done <= fin
      ensures HasCode(g, table, fin, lit) && res == table[lit]
      ensures fin == Post(g, done, Var(lit))
    {
      hide Outcome, WellDefined, Acyclic, Kid, Walk, Flat, Promised, Finished, CodeTable, Order, Gates, Waiting, Needed, Root;
      LiteralCode(g, code, done, lit);
      CodedPost(g, code, done, lit);
      fin, table, next := done, code, top;
      if lit < 2 {
        return lit, table, next, fin;
      }
      if code[lit] != 0 {
        return code[lit], table, next, fin;
      }
      var stack := [Var(lit)];
      ghost var s := Stack([Var(lit)], []);
      StartWalk(g, onstack, done, [Var(lit)]);
      StartPromise(Var(lit), done);
      RootNeeded(g, lit);
      StartGates(g, Var(lit));
      OutcomeStart(g, done, Var(lit));
      while stack != []
        invariant Walk(g, s, onstack, fin) && Gates(g, s) && AllNeeded(g, fin) && stack == Flat(s) && Promised(s, fin, Var(lit)) && done <= fin
        invariant CodeTable(g, table, Order(g, fin)) && next == 2 * |Order(g, fin)| + 2
        invariant Outcome(g, s, fin) == Post(g, done, Var(lit))
        decreases |Waiting(onstack, table)|, |stack|
      {
        stack, table, next, s, fin := NumberStep(stack, table, next, g, s, fin, Var(lit));
      }
      EmptyStack(g, s, onstack, fin, Var(lit));
      TopOf(g, s, onstack, fin);
      OutcomeEnd(g, s, fin);
      FinishedCode(g, table, fin, lit);
      return table[lit], table, next, fin;
    }

    /** The new literals for a list. */
    method ReencodeList(lits: seq<nat>, code: seq<nat>, top: nat, ghost g: Net, ghost done: seq<nat>)
      returns (res: seq<nat>, table: seq<nat>, next: nat, ghost fin: seq<nat>)
      requires WellDefined(g) && Acyclic(g) && Skeleton(g) && forall l :: l in lits ==> Root(g, l) && Defined(g, l)
      requires |onstack| == |types| && (forall v :: 0 <= v < |types| ==> !onstack[v])
      requires Finished(g, done) && AllNeeded(g, done) && CodeTable(g, code, Order(g, done)) && top == 2 * |Order(g, done)| + 2
      modifies this`onstack
      ensures |onstack| == |types| && (forall v :: 0 <= v < |types| ==> !onstack[v])
      ensures Finished(g, fin) && AllNeeded(g, fin) && CodeTable(g, table, Order(g, fin)) && next == 2 * |Order(g, fin)| + 2 && done <= fin
      ensures Mapped(g, table, fin, lits, res)
      ensures fin == PostAll(g, done, lits)
    {
      hide Post, WellDefined, Acyclic, Finished, CodeTable, Order, HasCode, Defined, Root, AllNeeded;
      res, table, next, fin := [], code, top, done;
      for i := 0 to |lits|
        invariant |onstack| == |types| && (forall v :: 0 <= v < |types| ==> !onstack[v]) && done <= fin
        invariant Finished(g, fin) && AllNeeded(g, fin) && CodeTable(g, table, Order(g, fin)) && next == 2 * |Order(g, fin)| + 2
        invariant Mapped(g, table, fin, lits[..i], res)
        invariant fin == PostAll(g, done, lits[..i])
      {
        assert lits[i] in lits && lits[..i + 1] == lits[..i] + [lits[i]];
        ghost var before, prior := table, fin;
        var l;
        l, table, next, fin := ReencodeLit(lits[i], table, next, g, fin);
        PostAllOne(g, done, lits[..i], lits[i]);
        MappedStays(g, before, table, prior, fin, lits[..i], res);
        res := res + [l];
      }
      assert lits[..|lits|] == lits;
    }

    /** New literals for the next-state and reset literals of the latches. */
    method ReencodeLatches(code: seq<nat>, top: nat, ghost g: Net, ghost done: seq<nat>)
      returns (table: seq<nat>, next: nat, ghost fin: seq<nat>)
      requires WellDefined(g) && Acyclic(g) && Skeleton(g) && latches == g.latches
      requires |onstack| == |types| && (forall v :: 0 <= v < |types| ==> !onstack[v])
      requires Finished(g, done) && AllNeeded(g, done) && CodeTable(g, code, Order(g, done)) && top == 2 * |Order(g, done)| + 2
      modifies this`onstack, this`latches
      ensures |onstack| == |types| && (forall v :: 0 <= v < |types| ==> !onstack[v])
      ensures Finished(g, fin) && AllNeeded(g, fin) && CodeTable(g, table, Order(g, fin)) && next == 2 * |Order(g, fin)| + 2 && done <= fin
      ensures |latches| == |g.latches| && forall i :: 0 <= i < |latches| ==> latches[i].lit == g.latches[i].lit
      ensures Mapped(g, table, fin, Nexts(g.latches), Nexts(latches)) && Mapped(g, table, fin, Resets(g.latches), Resets(latches))
      ensures fin == PostAll(g, done, LatchLits(g.latches))
    {
      hide Post, PostAll, WellDefined, Acyclic, Finished, CodeTable, Order, HasCode, Defined, Root, AllNeeded, LatchLits;
      table, next, fin := code, top, done;
      PostAllNone(g, done);
      for i := 0 to |latches|
        invariant |onstack| == |types| && (forall v :: 0 <= v < |types| ==> !onstack[v]) && done <= fin && Skeleton(g)
        invariant Finished(g, fin) && AllNeeded(g, fin) && CodeTable(g, table, Order(g, fin)) && next == 2 * |Order(g, fin)| + 2
        invariant |latches| == |g.latches| && latches[i..] == g.latches[i..]
        invariant forall k :: 0 <= k < i ==> latches[k].lit == g.latches[k].lit
        invariant Mapped(g, table, fin, Nexts(g.latches[..i]), Nexts(latches[..i]))
        invariant Mapped(g, table, fin, Resets(g.latches[..i]), Resets(latches[..i]))
        invariant fin == PostAll(g, done, LatchLits(g.latches[..i]))
      {
        assert latches[i] == latches[i..][0] == g.latches[i];
        LatchRoots(g, i);
        ghost var before, prior := table, fin;
        var a, b;
        a, table, next, fin := ReencodeLit(latches[i].next, table, next, g, fin);
        ghost var mid, midFin := table, fin;
        b, table, next, fin := ReencodeLit(latches[i].reset, table, next, g, fin);
        PostLatch(g, done, i, prior, midFin, fin);
        CodeStays(g, mid, table, midFin, fin, g.latches[i].next);
        MappedStays(g, before, table, prior, fin, Nexts(g.latches[..i]), Nexts(latches[..i]));
        MappedStays(g, before, table, prior, fin, Resets(g.latches[..i]), Resets(latches[..i]));
        ghost var ls := latches;
        latches := latches[i := Latch(latches[i].lit, a, b)];
        assert latches[i + 1..] == ls[i..][1..] == g.latches[i..][1..] == g.latches[i + 1..];
        assert latches[..i + 1] == ls[..i] + [latches[i]] && g.latches[..i + 1] == g.latches[..i] + [g.latches[i]];
        assert Nexts(latches[..i + 1]) == Nexts(ls[..i]) + [a] && Resets(latches[..i + 1]) == Resets(ls[..i]) + [b];
        assert Nexts(g.latches[..i + 1]) == Nexts(g.latches[..i]) + [g.latches[i].next];
        assert Resets(g.latches[..i + 1]) == Resets(g.latches[..i]) + [g.latches[i].reset];
      }
      assert latches[..|latches|] == latches && g.latches[..|latches|] == g.latches;
    }

    /** Rewrites the gates that have numbers, the larger input first, and drops the others. */
    method RewriteAnds(code: seq<nat>, ghost g: Net, ghost done: seq<nat>)
      requires WellDefined(g) && ands == g.ands && Finished(g, done) && CodeTable(g, code, Order(g, done))
      modifies this`ands
      ensures forall b :: b in ands <==> exists i :: 0 <= i < |g.ands| && Kept(g, code, i, b)
      ensures Different(ands)
    {
      hide WellDefined, CodeTable, Order, Kept, Recode, Finished;
      var i, j := 0, 0;
      while i < |ands|
        invariant 0 <= j <= i <= |ands| == |g.ands| && ands[i..] == g.ands[i..]
        invariant forall b :: b in ands[..j] <==> exists h :: 0 <= h < i && Kept(g, code, h, b)
        invariant Different(ands[..j])
      {
        var a := ands[i];
        assert a == ands[i..][0] == g.ands[i];
        GateReadable(g, code, done, i);
        ghost var prior := ands;
        var lhs := code[a.lhs];
        if lhs != 0 {
          var rhs0, rhs1 := code[a.rhs0], code[a.rhs1];
          if rhs0 < rhs1 {
            rhs0, rhs1 := rhs1, rhs0;
          }
          ands := ands[j := And(lhs, rhs0, rhs1)];
          KeptHere(g, code, i, ands[j]);
          NewLhs(g, code, done, ands[..j], i, ands[j]);
          assert ands[..j + 1] == prior[..j] + [ands[j]];
          j := j + 1;
        } else {
          NotKept(g, code, i);
        }
        assert ands[i + 1..] == prior[i..][1..] == g.ands[i..][1..] == g.ands[i + 1..];
        i := i + 1;
      }
      ands := ands[..j];
    }

    /** Sorts the gates by their outputs, provided the comparison is right for them. */
    method SortAnds()
      requires Different(ands) && Comparable(ands)
      modifies this`ands
      ensures Ascending(ands) && forall b :: b in ands <==> b in old(ands)
    {
      hide Comparable;
      for i := 0 to |ands|
        invariant |ands| == |old(ands)| && Different(ands) && forall b :: b in ands <==> b in old(ands)
        invariant forall j, k :: 0 <= j < k < |ands| && j < i ==> ands[j].lhs < ands[k].lhs
      {
        ghost var before := ands;
        StillComparable(old(ands), ands);
        var best := LeastAnd(i);
        ands := ands[i := ands[best]][best := ands[i]];
        SwapGates(before, ands, i, best);
      }
    }

    /** The gate with the least output from place `i` on. */
    method LeastAnd(i: nat) returns (best: nat)
      requires i < |ands| && Comparable(ands)
      ensures i <= best < |ands| && forall k :: i <= k < |ands| ==> ands[best].lhs <= ands[k].lhs
    {
      hide CompareLhs;
      best := i;
      for j := i + 1 to |ands|
        invariant i <= best < |ands| && forall k :: i <= k < j ==> ands[best].lhs <= ands[k].lhs
      {
        assert ands[j] in ands && ands[best] in ands;
        if CompareLhs(ands[j].lhs, ands[best].lhs) < 0 {
          best := j;
        }
      }
    }

    /** The numbers are consecutive, with inputs before latches before gates, and every gate is behind its inputs. */
    method IsReencoded() returns (r: bool)
      ensures r <==> Reencoded(G())
    {
      var max := 0;
      for i := 0 to |inputs|
        invariant max == 2 * i && forall k :: 0 <= k < i ==> inputs[k] == 2 * k + 2
      {
        max := max + 2;
        if max != inputs[i] {
          return false;
        }
      }
      for i := 0 to |latches|
        invariant max == 2 * (|inputs| + i) && forall k :: 0 <= k < i ==> latches[k].lit == 2 * (|inputs| + k) + 2
      {
        max := max + 2;
        if max != latches[i].lit {
          return false;
        }
      }
      var lhs := MaxInputOrLatch();
      assert lhs == max by {
        assert |latches| > 0 ==> latches[|latches| - 1].lit == max;
        assert |latches| == 0 && |inputs| > 0 ==> inputs[|inputs| - 1] == max;
      }
      lhs := lhs + 2;
      for i := 0 to |ands|
        invariant lhs == 2 * (|inputs| + |latches| + i) + 2
        invariant forall k :: 0 <= k < i ==>
          ands[k].lhs == 2 * (|inputs| + |latches| + k) + 2 && ands[k].rhs1 <= ands[k].rhs0 <= ands[k].lhs
      {
        if ands[i].lhs <= max || ands[i].lhs != lhs || ands[i].lhs < ands[i].rhs0 || ands[i].rhs0 < ands[i].rhs1 {
          return false;
        }
        lhs := lhs + 2;
      }
      return true;
    }

    /** The largest literal of an input or a latch. */
    method MaxInputOrLatch() returns (res: nat)
      ensures forall i :: 0 <= i < |inputs| ==> inputs[i] <= res
      ensures forall i :: 0 <= i < |latches| ==> latches[i].lit <= res
      ensures res == 0 || (exists i :: 0 <= i < |inputs| && inputs[i] == res) || exists i :: 0 <= i < |latches| && latches[i].lit == res
    {
      res := 0;
      for i := 0 to |inputs|
        invariant forall k :: 0 <= k < i ==> inputs[k] <= res
        invariant res == 0 || exists k :: 0 <= k < i && inputs[k] == res
      {
        if inputs[i] > res {
          res := inputs[i];
        }
      }
      for i := 0 to |latches|
        invariant forall k :: 0 <= k < |inputs| ==> inputs[k] <= res
        invariant forall k :: 0 <= k < i ==> latches[k].lit <= res
        invariant res == 0 || (exists k :: 0 <= k < |inputs| && inputs[k] == res) || exists k :: 0 <= k < i && latches[k].lit == res
      {
        if latches[i].lit > res {
          res := latches[i].lit;
        }
      }
    }

    /** Gives inputs and latches their new literals and rebuilds the table of variables. */
    method FixTypes(code: seq<nat>, ghost g: Net, ghost done: seq<nat>)
      requires WellDefined(g) && CodeTable(g, code, Order(g, done)) && inputs == g.inputs && SameLits(latches, g.latches)
      requires forall i :: 0 <= i < |ands| ==> ands[i].lhs == 2 * (|inputs| + |latches| + i) + 2
      modifies this`types, this`maxvar, this`inputs, this`latches
      ensures maxvar == |inputs| + |latches| + |ands| && Consecutive(G()) && Canonical(G())
      ensures |inputs| == |old(inputs)| && |latches| == |old(latches)|
      ensures forall i :: 0 <= i < |latches| ==> latches[i].next == old(latches)[i].next && latches[i].reset == old(latches)[i].reset
    {
      hide WellDefined, CodeTable, Order, Entered;
      var ni, nl, na := |inputs|, |latches|, |ands|;
      maxvar := ni + nl + na;
      types := seq(maxvar + 1, v => Type(false, false, false, 0));
      NothingEntered(types, ni, nl, na);
      for i := 0 to |ands|
        invariant inputs == g.inputs && latches == old(latches) && maxvar == ni + nl + na
        invariant Entered(types, ni, nl, na, 0, 0, i)
      {
        TypeEntered(types, ni, nl, na, 0, 0, i);
        types := types[Var(ands[i].lhs) := Type(false, false, true, i)];
      }
      for i := 0 to |inputs|
        invariant |inputs| == ni && inputs[i..] == g.inputs[i..] && latches == old(latches)
        invariant maxvar == ni + nl + na && Entered(types, ni, nl, na, i, 0, na)
        invariant forall k :: 0 <= k < i ==> inputs[k] == 2 * k + 2
      {
        TypeEntered(types, ni, nl, na, i, 0, na);
        assert inputs[i] == inputs[i..][0] == g.inputs[i];
        SourceCode(g, code, done, i);
        ghost var before := inputs;
        inputs := inputs[i := code[inputs[i]]];
        assert inputs[i + 1..] == before[i..][1..] == g.inputs[i..][1..] == g.inputs[i + 1..];
        types := types[Var(inputs[i]) := Type(true, false, false, i)];
      }
      for i := 0 to |latches|
        invariant |inputs| == ni && |latches| == nl && latches[i..] == old(latches)[i..]
        invariant maxvar == ni + nl + na && Entered(types, ni, nl, na, ni, i, na)
        invariant forall k :: 0 <= k < ni ==> inputs[k] == 2 * k + 2
        invariant forall k :: 0 <= k < i ==> latches[k] == Latch(2 * (ni + k) + 2, old(latches)[k].next, old(latches)[k].reset)
      {
        TypeEntered(types, ni, nl, na, ni, i, na);
        assert latches[i] == latches[i..][0] == old(latches)[i];
        SourceCode(g, code, done, ni + i);
        ghost var before := latches;
        latches := latches[i := latches[i].(lit := code[latches[i].lit])];
        assert latches[i + 1..] == before[i..][1..] == old(latches)[i..][1..] == old(latches)[i + 1..];
        types := types[Var(latches[i].lit) := Type(false, true, false, i)];
      }
    }

    /** The first codes: inputs, then latches. */
    method NumberSources(ghost g: Net) returns (code: seq<nat>, top: nat)
      requires WellDefined(g) && g == G()
      ensures CodeTable(g, code, Order(g, [])) && top == 2 * |Order(g, [])| + 2
    {
      hide TypesOk, CodeTable, Sources, Order;
      TableSize(g);
      SourcesSize(g);
      code := seq(2 * (maxvar + 1), l => if l == 1 then 1 else 0);
      top := 2;
      EmptyTable(g, code);
      SourcesDistinct(g);
      ghost var order := Sources(g);
      for i := 0 to |inputs|
        invariant CodeTable(g, code, order[..i]) && top == 2 * i + 2 && i <= |order|
      {
        SourcePlace(g, i);
        OneMoreSource(g, code, order, i);
        TableLength(g, code, order[..i]);
        var from := inputs[i];
        code := code[from := top][from + 1 := top + 1];
        top := top + 2;
      }
      for i := 0 to |latches|
        invariant CodeTable(g, code, order[..|inputs| + i]) && top == 2 * (|inputs| + i) + 2 && |inputs| + i <= |order|
      {
        SourcePlace(g, |inputs| + i);
        OneMoreSource(g, code, order, |inputs| + i);
        TableLength(g, code, order[..|inputs| + i]);
        var from := latches[i].lit;
        code := code[from := top][from + 1 := top + 1];
        top := top + 2;
      }
      assert order[..|inputs| + |latches|] == order == Order(g, []);
    }

    /** New literals for the justice properties, each of them a set. */
    method ReencodeJustice(code: seq<nat>, top: nat, ghost g: Net, ghost done: seq<nat>)
      returns (table: seq<nat>, next: nat, ghost fin: seq<nat>)
      requires WellDefined(g) && Acyclic(g) && Skeleton(g) && justice == g.justice
      requires |onstack| == |types| && (forall v :: 0 <= v < |types| ==> !onstack[v])
      requires Finished(g, done) && AllNeeded(g, done) && CodeTable(g, code, Order(g, done)) && top == 2 * |Order(g, done)| + 2
      modifies this`onstack, this`justice
      ensures |onstack| == |types| && (forall v :: 0 <= v < |types| ==> !onstack[v])
      ensures Finished(g, fin) && AllNeeded(g, fin) && CodeTable(g, table, Order(g, fin)) && next == 2 * |Order(g, fin)| + 2 && done <= fin
      ensures MappedSets(g, table, fin, g.justice, justice)
      ensures fin == PostAll(g, done, Flatten(g.justice))
    {
      hide Post, PostAll, WellDefined, Acyclic, Finished, CodeTable, Order, HasCode, Defined, Root, AllNeeded, Mapped;
      table, next, fin := code, top, done;
      PostAllNone(g, done);
      for i := 0 to |justice|
        invariant fin == PostAll(g, done, Flatten(g.justice[..i]))
        invariant |onstack| == |types| && (forall v :: 0 <= v < |types| ==> !onstack[v]) && done <= fin && Skeleton(g)
        invariant Finished(g, fin) && AllNeeded(g, fin) && CodeTable(g, table, Order(g, fin)) && next == 2 * |Order(g, fin)| + 2
        invariant |justice| == |g.justice| && forall k :: i <= k < |justice| ==> justice[k] == g.justice[k]
        invariant forall k :: 0 <= k < i ==> Mapped(g, table, fin, g.justice[k], justice[k])
      {
        JusticeRoots(g, i);
        ghost var before, prior, js := table, fin, justice;
        var lits;
        lits, table, next, fin := ReencodeList(justice[i], table, next, g, fin);
        forall k | 0 <= k < i ensures Mapped(g, table, fin, g.justice[k], js[k]) {
          MappedStays(g, before, table, prior, fin, g.justice[k], js[k]);
        }
        assert g.justice[..i + 1][..i] == g.justice[..i];
        PostAllConcat(g, done, Flatten(g.justice[..i]), g.justice[i]);
        justice := justice[i := lits];
      }
      assert g.justice[..|justice|] == g.justice;
    }

    /** New literals for everything that the graph is there for: latches, outputs, bad states, constraints, justice and
        fairness properties. */
    method ReencodeRoots(code: seq<nat>, top: nat, ghost g: Net) returns (table: seq<nat>, next: nat, ghost fin: seq<nat>)
      requires WellDefined(g) && Acyclic(g) && g == G()
      requires |onstack| == |types| && (forall v :: 0 <= v < |types| ==> !onstack[v])
      requires CodeTable(g, code, Order(g, [])) && top == 2 * |Order(g, [])| + 2
      modifies this`latches, this`outputs, this`bad, this`constraints, this`justice, this`fairness, this`onstack
      ensures |onstack| == |types| && (forall v :: 0 <= v < |types| ==> !onstack[v])
      ensures Finished(g, fin) && AllNeeded(g, fin) && CodeTable(g, table, Order(g, fin)) && next == 2 * |Order(g, fin)| + 2
      ensures SameLits(latches, g.latches) && RootsMapped(g, table, fin, G())
      ensures fin == Postorder(g)
    {
      hide PostAll, Postorder, LatchLits, Flatten, WellDefined, Acyclic, CodeTable, Finished, Order, Defined, Mapped;
      hide MappedSets, Root, AllNeeded, Nexts, Resets;
      NothingFinished(g);
      ListRoots(g);
      table, next, fin := ReencodeLatches(code, top, g, []);
      ghost var t0, f0 := table, fin;
      outputs, table, next, fin := ReencodeList(outputs, table, next, g, fin);
      ghost var t1, f1 := table, fin;
      bad, table, next, fin := ReencodeList(bad, table, next, g, fin);
      ghost var t2, f2 := table, fin;
      constraints, table, next, fin := ReencodeList(constraints, table, next, g, fin);
      ghost var t3, f3 := table, fin;
      table, next, fin := ReencodeJustice(table, next, g, fin);
      ghost var t4, f4 := table, fin;
      fairness, table, next, fin := ReencodeList(fairness, table, next, g, fin);
      WholePostorder(g, f0, f1, f2, f3, f4, fin);
      MappedStays(g, t0, table, f0, fin, Nexts(g.latches), Nexts(latches));
      MappedStays(g, t0, table, f0, fin, Resets(g.latches), Resets(latches));
      MappedStays(g, t1, table, f1, fin, g.outputs, outputs);
      MappedStays(g, t2, table, f2, fin, g.bad, bad);
      MappedStays(g, t3, table, f3, fin, g.constraints, constraints);
      SetsStay(g, t4, table, f4, fin, g.justice, justice);
    }

    /** Renumbers the graph unless its numbers are in order already. */
    method Reencode() returns (ghost code: seq<nat>, ghost done: seq<nat>)
      requires WellDefined(G()) && Acyclic(G()) && (Reencoded(G()) || |ands| <= GATES)
      requires |onstack| == |types| && forall v :: 0 <= v < |types| ==> !onstack[v]
      modifies this`maxvar, this`inputs, this`latches, this`outputs, this`bad, this`constraints, this`justice, this`fairness,
               this`ands, this`types, this`onstack
      ensures WellDefined(G()) && Acyclic(G()) && Reencoded(G()) && maxvar <= old(maxvar)
      ensures SameMeaning(old(G()), G())
      ensures if old(Reencoded(G())) then G() == old(G()) else Reencodes(old(G()), G(), code, done) && done == Postorder(old(G()))
    {
      hide Postorder, WellDefined, Acyclic, Reencoded, Reencodes, SameMeaning, CodeTable, Finished, AllNeeded, Order;
      hide Defined, Mapped, Canonical, Consecutive, Kept, Ascending;
      ghost var g := G();
      code, done := [], [];
      var ready := IsReencoded();
      if ready {
        SameGraph(g);
        return;
      }
      var table, top := NumberSources(g);
      table, top, done := ReencodeRoots(table, top, g);
      code := table;
      RewriteAnds(table, g, done);
      FewGates(g, done);
      SortsRight(g, table, done, ands);
      SortAnds();
      SortedGates(g, table, done, ands);
      NewAndsNumbered(g, table, done, ands);
      ghost var ls := latches;
      FixTypes(table, g, done);
      SameNexts(ls, latches);
      BuiltUp(g, G(), table, done);
      NewGraph(g, G(), code, done);
      KeepsMeaning(g, G(), code, done);
    }

    /** The gates in binary form: renumbers first, then writes the differences. */
    method WriteBinaryAnds() returns (out: seq<byte>)
      requires WellDefined(G()) && Acyclic(G()) && 2 * maxvar < WORD && (Reencoded(G()) || |ands| <= GATES)
      requires |onstack| == |types| && forall v :: 0 <= v < |types| ==> !onstack[v]
      modifies this`maxvar, this`inputs, this`latches, this`outputs, this`bad, this`constraints, this`justice, this`fairness,
               this`ands, this`types, this`onstack
      ensures WellDefined(G()) && Acyclic(G()) && Reencoded(G()) && SameMeaning(old(G()), G())
      ensures AlwaysReadBack(out, ands, 2 * (|inputs| + |latches|) + 2)
      ensures if old(Reencoded(G())) then G() == old(G())
              else exists code: seq<nat> :: Reencodes(old(G()), G(), code, Postorder(old(G())))
    {
      hide Postorder, WellDefined, Acyclic, Consecutive, Reencodes, SameMeaning, AlwaysReadBack, SectionOk;
      ghost var code, done := Reencode();
      var max := MaxInputOrLatch();
      LastSource(G(), max);
      Writable(G());
      out := WriteAnds(ands, max + 2);
      EncodedReadBack(ands, max + 2);
    }
  }

  /** The comparison is right for the kept gates if and only if there are at most 2^30 of them. */
  lemma SortsRight(g: Net, code: seq<nat>, done: seq<nat>, ands: seq<And>)
    requires WellDefined(g) && Finished(g, done) && CodeTable(g, code, Order(g, done))
    requires forall b :: b in ands <==> exists i :: 0 <= i < |g.ands| && Kept(g, code, i, b)
    ensures Comparable(ands) <==> |done| <= GATES
  {
    hide WellDefined, Finished, CodeTable, CompareLhs, Kept, GateCode;
    if |done| <= GATES {
      forall a, b | a in ands && b in ands ensures CompareLhs(a.lhs, b.lhs) < 0 <==> a.lhs < b.lhs {
        var i :| 0 <= i < |g.ands| && Kept(g, code, i, a);
        var j :| 0 <= j < |g.ands| && Kept(g, code, j, b);
        var k := KeptNumber(g, code, done, i, a);
        var n := KeptNumber(g, code, done, j, b);
        CompareRight(a.lhs, b.lhs);
      }
    } else {
      var i := NumberKept(g, code, done, 0);
      var j := NumberKept(g, code, done, GATES);
      CompareRight(GateCode(g, code, done[GATES]).lhs, GateCode(g, code, done[0]).lhs);
    }
  }

  lemma KeptNumber(g: Net, code: seq<nat>, done: seq<nat>, i: nat, b: And) returns (k: nat)
    requires WellDefined(g) && Finished(g, done) && CodeTable(g, code, Order(g, done)) && Kept(g, code, i, b)
    ensures k < |done| && b.lhs == 2 * (|Sources(g)| + k) + 2
  {
    hide TypesOk, CodeTable;
    k := NumberedGate(g, code, done, i);
    GateAt(g, i);
    GateNumber(g, code, done, k);
  }

  lemma NumberKept(g: Net, code: seq<nat>, done: seq<nat>, k: nat) returns (i: nat)
    requires WellDefined(g) && Finished(g, done) && CodeTable(g, code, Order(g, done)) && k < |done|
    ensures |code| == 2 * (g.maxvar + 1) && IsAnd(g, done[k])
    ensures i < |g.ands| && Kept(g, code, i, GateCode(g, code, done[k]))
    ensures GateCode(g, code, done[k]).lhs == 2 * (|Sources(g)| + k) + 2
  {
    hide TypesOk, CodeTable;
    TableLength(g, code, Order(g, done));
    GateNumber(g, code, done, k);
    i := g.types[done[k]].idx;
  }

  /** Not more gates are finished than there are. */
  lemma FewGates(g: Net, done: seq<nat>)
    requires WellDefined(g) && Finished(g, done)
    ensures |done| <= |g.ands|
  {
    hide Kid;
    var places := seq(|done|, k requires 0 <= k < |done| => PlaceOf(g, done[k]));
    forall k | 0 <= k < |done| ensures 0 < places[k] <= |g.ands| { assert IsAnd(g, done[k]); }
    forall j, k | 0 <= j < k < |done| ensures places[j] != places[k] {
      assert IsAnd(g, done[j]) && IsAnd(g, done[k]) && done[j] != done[k];
    }
    FitsBelow(places, |g.ands|);
  }

  function PlaceOf(g: Net, v: nat): nat { if v < |g.types| then g.types[v].idx + 1 else 0 }

  ghost predicate SameLits(a: seq<Latch>, b: seq<Latch>) { |a| == |b| && forall i :: 0 <= i < |a| ==> a[i].lit == b[i].lit }

  /** The code of the literal of an input or a latch. */
  lemma SourceCode(g: Net, code: seq<nat>, done: seq<nat>, k: nat)
    requires WellDefined(g) && CodeTable(g, code, Order(g, done)) && k < |g.inputs| + |g.latches|
    ensures var l := if k < |g.inputs| then g.inputs[k] else g.latches[k - |g.inputs|].lit; l < |code| && code[l] == 2 * k + 2
  {
    hide TypesOk, CodeTable;
    SourcePlace(g, k);
    SourcesDistinct(g);
    assert Order(g, done)[k] == Sources(g)[k];
    CodeOf(g, code, Order(g, done), 2 * Sources(g)[k]);
  }

  lemma SourcesSize(g: Net)
    ensures |Sources(g)| == |g.inputs| + |g.latches| && Order(g, []) == Sources(g)
  {
  }

  lemma SourcePlace(g: Net, k: nat)
    requires TypesOk(g) && k < |Sources(g)|
    ensures (if k < |g.inputs| then g.inputs[k] else g.latches[k - |g.inputs|].lit) == 2 * Sources(g)[k]
  {
    if k < |g.inputs| { assert Place(g, g.inputs[k]); } else { assert Place(g, g.latches[k - |g.inputs|].lit); }
  }

  lemma OneMoreSource(g: Net, code: seq<nat>, order: seq<nat>, k: nat)
    requires k < |order| && CodeTable(g, code, order[..k]) && 0 < order[k] <= g.maxvar
    requires forall i, j :: 0 <= i < j < |order| ==> order[i] != order[j]
    ensures |code| == 2 * (g.maxvar + 1)
    ensures CodeTable(g, code[2 * order[k] := 2 * k + 2][2 * order[k] + 1 := 2 * k + 3], order[..k + 1])
  {
    hide CodeTable;
    TableLength(g, code, order[..k]);
    assert order[..k + 1] == order[..k] + [order[k]] && order[k] !in order[..k];
    NewCode(g, code, order[..k], order[k]);
  }

  lemma LastSource(g: Net, max: nat)
    requires Consecutive(g)
    requires (forall i :: 0 <= i < |g.inputs| ==> g.inputs[i] <= max) && forall i :: 0 <= i < |g.latches| ==> g.latches[i].lit <= max
    requires max == 0 || (exists i :: 0 <= i < |g.inputs| && g.inputs[i] == max) || exists i :: 0 <= i < |g.latches| && g.latches[i].lit == max
    ensures max == 2 * (|g.inputs| + |g.latches|)
  {
    var ni, nl := |g.inputs|, |g.latches|;
    if nl > 0 { assert g.latches[nl - 1].lit == 2 * (ni + nl); }
    else if ni > 0 { assert g.inputs[ni - 1] == 2 * ni; }
  }

  lemma GatesFit(g: Net)
    requires TypesOk(g) && 2 * g.maxvar < WORD
    ensures forall i :: 0 <= i < |g.ands| ==> g.ands[i].lhs < WORD
  {
    hide TypesOk;
    forall i | 0 <= i < |g.ands| ensures g.ands[i].lhs < WORD { GateAt(g, i); }
  }

  /** A re-encoded graph meets the condition of the writer. */
  lemma Writable(g: Net)
    requires WellDefined(g) && Reencoded(g) && 2 * g.maxvar < WORD
    ensures SectionOk(g.ands, 2 * (|g.inputs| + |g.latches|) + 2)
  {
    hide TypesOk, Root, Defined;
    GatesFit(g);
  }

  lemma ListRoots(g: Net)
    requires WellDefined(g)
    ensures forall l :: l in g.outputs || l in g.bad || l in g.constraints || l in g.fairness ==> Root(g, l) && Defined(g, l)
  {
    assert forall l :: Root(g, l) ==> Defined(g, l);
  }

  lemma JusticeRoots(g: Net, i: nat)
    requires WellDefined(g) && i < |g.justice|
    ensures forall l :: l in g.justice[i] ==> Root(g, l) && Defined(g, l)
  {
    forall l | l in g.justice[i] ensures Root(g, l) && Defined(g, l) {
      assert InSome(g.justice, l);
      assert Root(g, l);
    }
  }

  lemma SetsStay(g: Net, code: seq<nat>, table: seq<nat>, done: seq<nat>, fin: seq<nat>, sets: seq<seq<nat>>, res: seq<seq<nat>>)
    requires CodeTable(g, code, Order(g, done)) && CodeTable(g, table, Order(g, fin)) && done <= fin
    requires MappedSets(g, code, done, sets, res)
    ensures MappedSets(g, table, fin, sets, res)
  {
    hide CodeTable, Mapped;
    forall i | 0 <= i < |sets| ensures Mapped(g, table, fin, sets[i], res[i]) {
      MappedStays(g, code, table, done, fin, sets[i], res[i]);
    }
  }

  lemma NewAndsNumbered(g: Net, code: seq<nat>, done: seq<nat>, ands: seq<And>)
    requires WellDefined(g) && Finished(g, done) && CodeTable(g, code, Order(g, done)) && NewAnds(g, code, done, ands)
    ensures forall i :: 0 <= i < |ands| ==> ands[i].lhs == 2 * (|g.inputs| + |g.latches| + i) + 2
  {
    hide WellDefined, Finished, CodeTable, IsAnd;
    forall i | 0 <= i < |ands| ensures ands[i].lhs == 2 * (|g.inputs| + |g.latches| + i) + 2 { GateNumber(g, code, done, i); }
  }

  lemma SameNexts(a: seq<Latch>, b: seq<Latch>)
    requires |a| == |b| && forall i :: 0 <= i < |a| ==> a[i].next == b[i].next && a[i].reset == b[i].reset
    ensures Nexts(a) == Nexts(b) && Resets(a) == Resets(b)
  {
  }

  lemma BuiltUp(g: Net, h: Net, code: seq<nat>, done: seq<nat>)
    requires Finished(g, done) && AllNeeded(g, done) && CodeTable(g, code, Order(g, done)) && NewAnds(g, code, done, h.ands)
    requires Consecutive(h) && Canonical(h) && RootsMapped(g, code, done, h)
    requires |h.inputs| == |g.inputs| && |h.latches| == |g.latches|
    ensures Reencodes(g, h, code, done)
  {
    hide Finished, CodeTable, RootsMapped;
  }

  ghost predicate Different(ands: seq<And>) { forall j, k :: 0 <= j < k < |ands| ==> ands[j].lhs != ands[k].lhs }

  lemma GateReadable(g: Net, code: seq<nat>, done: seq<nat>, i: nat)
    requires WellDefined(g) && CodeTable(g, code, Order(g, done)) && i < |g.ands|
    ensures Readable(code, g.ands[i])
  {
    hide CodeTable, TypesOk;
    TableLength(g, code, Order(g, done));
    GateAt(g, i);
  }

  lemma KeptHere(g: Net, code: seq<nat>, i: nat, b: And)
    requires i < |g.ands| && Readable(code, g.ands[i]) && code[g.ands[i].lhs] != 0
    requires var a := g.ands[i]; b == And(code[a.lhs], Larger(code[a.rhs0], code[a.rhs1]), Smaller(code[a.rhs0], code[a.rhs1]))
    ensures forall c :: Kept(g, code, i, c) <==> c == b
  {
  }

  lemma NotKept(g: Net, code: seq<nat>, i: nat)
    requires i < |g.ands| && Readable(code, g.ands[i]) && code[g.ands[i].lhs] == 0
    ensures forall c :: !Kept(g, code, i, c)
  {
  }

  /** Different gates get different numbers. */
  lemma NewLhs(g: Net, code: seq<nat>, done: seq<nat>, kept: seq<And>, i: nat, b: And)
    requires WellDefined(g) && Finished(g, done) && CodeTable(g, code, Order(g, done)) && Kept(g, code, i, b) && Different(kept)
    requires forall c :: c in kept <==> exists h :: 0 <= h < i && Kept(g, code, h, c)
    ensures Different(kept + [b])
  {
    hide TypesOk, CodeTable;
    forall j | 0 <= j < |kept| ensures kept[j].lhs != b.lhs {
      assert kept[j] in kept;
      var h :| 0 <= h < i && Kept(g, code, h, kept[j]);
      var m := NumberedGate(g, code, done, h);
      var n := NumberedGate(g, code, done, i);
      GateAt(g, h);
      GateAt(g, i);
      GateNumber(g, code, done, m);
      GateNumber(g, code, done, n);
    }
  }

  lemma SwapGates(a: seq<And>, b: seq<And>, i: nat, j: nat)
    requires i < |a| && j < |a| && Different(a) && b == a[i := a[j]][j := a[i]]
    ensures Different(b) && forall x :: x in b <==> x in a
  {
    forall x | x in a ensures x in b {
      var k :| 0 <= k < |a| && a[k] == x;
      assert b[if k == i then j else if k == j then i else k] == x;
    }
  }

  lemma MappedStays(g: Net, code: seq<nat>, table: seq<nat>, done: seq<nat>, fin: seq<nat>, lits: seq<nat>, res: seq<nat>)
    requires CodeTable(g, code, Order(g, done)) && CodeTable(g, table, Order(g, fin)) && done <= fin
    requires Mapped(g, code, done, lits, res)
    ensures Mapped(g, table, fin, lits, res)
  {
    hide CodeTable;
    forall i | 0 <= i < |lits| ensures HasCode(g, table, fin, lits[i]) && res[i] == table[lits[i]] {
      CodeStays(g, code, table, done, fin, lits[i]);
    }
  }

  lemma LatchRoots(g: Net, i: nat)
    requires WellDefined(g) && i < |g.latches|
    ensures Root(g, g.latches[i].next) && Root(g, g.latches[i].reset)
    ensures Defined(g, g.latches[i].next) && Defined(g, g.latches[i].reset)
  {
    assert Root(g, g.latches[i].next) && Root(g, g.latches[i].reset);
  }

  lemma StartGates(g: Net, v: nat)
    requires Needed(g, v)
    ensures Gates(g, Stack([v], []))
  {
  }

  lemma LiteralCode(g: Net, code: seq<nat>, done: seq<nat>, l: nat)
    requires WellDefined(g) && Defined(g, l) && CodeTable(g, code, Order(g, done))
    ensures l < |code| && (l < 2 || code[l] != 0 ==> HasCode(g, code, done, l) && (l < 2 ==> code[l] == l))
    ensures l >= 2 && code[l] == 0 ==> IsAnd(g, Var(l)) && Var(l) != 0
  {
    hide CodeTable;
    CodeOf(g, code, Order(g, done), l);
    SourcesDistinct(g);
  }

  /** A literal that has a code already, or none below it, adds no gate. */
  lemma CodedPost(g: Net, code: seq<nat>, done: seq<nat>, l: nat)
    requires WellDefined(g) && Acyclic(g) && Defined(g, l) && CodeTable(g, code, Order(g, done))
    ensures l < |code| && (l < 2 || code[l] != 0 ==> Post(g, done, Var(l)) == done)
  {
    hide CodeTable, TypesOk, Acyclic;
    CodeOf(g, code, Order(g, done), l);
    KindsDisjoint(g);
    if IsAnd(g, Var(l)) && Var(l) !in done {
      SourcesDistinct(g);
      assert Var(l) !in Order(g, done);
    }
  }

  lemma PostAllNone(g: Net, done: seq<nat>)
    requires WellDefined(g) && Acyclic(g)
    ensures PostAll(g, done, []) == done && LatchLits([]) == [] && Flatten([]) == []
  {
    hide WellDefined, Acyclic;
  }

  lemma PostLatch(g: Net, done: seq<nat>, i: nat, prior: seq<nat>, mid: seq<nat>, fin: seq<nat>)
    requires WellDefined(g) && Acyclic(g) && i < |g.latches| && prior == PostAll(g, done, LatchLits(g.latches[..i]))
    requires mid == Post(g, prior, Var(g.latches[i].next)) && fin == Post(g, mid, Var(g.latches[i].reset))
    ensures fin == PostAll(g, done, LatchLits(g.latches[..i + 1]))
  {
    hide WellDefined, Acyclic, Post, PostAll;
    var a := LatchLits(g.latches[..i]);
    assert g.latches[..i + 1][..i] == g.latches[..i];
    assert LatchLits(g.latches[..i + 1]) == a + [g.latches[i].next] + [g.latches[i].reset];
    PostAllOne(g, done, a, g.latches[i].next);
    PostAllOne(g, done, a + [g.latches[i].next], g.latches[i].reset);
  }

  lemma WholePostorder(g: Net, f0: seq<nat>, f1: seq<nat>, f2: seq<nat>, f3: seq<nat>, f4: seq<nat>, fin: seq<nat>)
    requires WellDefined(g) && Acyclic(g) && f0 == PostAll(g, [], LatchLits(g.latches))
    requires f1 == PostAll(g, f0, g.outputs) && f2 == PostAll(g, f1, g.bad) && f3 == PostAll(g, f2, g.constraints)
    requires f4 == PostAll(g, f3, Flatten(g.justice)) && fin == PostAll(g, f4, g.fairness)
    ensures fin == Postorder(g)
  {
    hide WellDefined, Acyclic, PostAll, LatchLits, Flatten;
    var a := LatchLits(g.latches);
    PostAllConcat(g, [], a, g.outputs);
    PostAllConcat(g, [], a + g.outputs, g.bad);
    PostAllConcat(g, [], a + g.outputs + g.bad, g.constraints);
    PostAllConcat(g, [], a + g.outputs + g.bad + g.constraints, Flatten(g.justice));
    PostAllConcat(g, [], a + g.outputs + g.bad + g.constraints + Flatten(g.justice), g.fairness);
  }

  lemma FinishedCode(g: Net, code: seq<nat>, done: seq<nat>, l: nat)
    requires WellDefined(g) && Defined(g, l) && CodeTable(g, code, Order(g, done)) && Var(l) in done
    ensures HasCode(g, code, done, l)
  {
    hide CodeTable;
    CodeOf(g, code, Order(g, done), l);
  }

  /** Codes once given stay. */
  lemma CodeStays(g: Net, code: seq<nat>, table: seq<nat>, done: seq<nat>, fin: seq<nat>, l: nat)
    requires CodeTable(g, code, Order(g, done)) && CodeTable(g, table, Order(g, fin)) && done <= fin && HasCode(g, code, done, l)
    ensures HasCode(g, table, fin, l) && table[l] == code[l]
  {
    hide CodeTable;
    CodeOf(g, code, Order(g, done), l);
    CodeOf(g, table, Order(g, fin), l);
    if l >= 2 {
      var k :| 0 <= k < |Order(g, done)| && Order(g, done)[k] == Var(l);
      assert Order(g, fin)[k] == Var(l);
    }
  }

  lemma TableSize(g: Net)
    requires WellDefined(g)
    ensures |g.types| == g.maxvar + 1 && !g.types[0].and
  {
  }

  lemma NothingFinished(g: Net)
    ensures Finished(g, []) && AllNeeded(g, [])
  {
  }

  lemma StartPromise(i: nat, done: seq<nat>)
    ensures Promised(Stack([i], []), done, i) && Flat(Stack([i], [])) == [i]
  {
  }

  lemma EmptyStack(g: Net, s: Stack, on: seq<bool>, done: seq<nat>, i: nat)
    requires Walk(g, s, on, done) && Flat(s) == [] && Promised(s, done, i)
    ensures Finished(g, done) && (forall v :: 0 <= v < |on| ==> !on[v]) && i in done && |on| == |g.types|
  {
    TopOf(g, s, on, done);
    forall v | 0 <= v < |on| ensures !on[v] { assert OnPath(s, v) <==> on[v]; }
  }

  /** The gates that have neither been entered nor numbered. */
  ghost function Waiting(on: seq<bool>, code: seq<nat>): set<nat> {
    set v | 0 <= v < |on| && !on[v] && 2 * v < |code| && code[2 * v] == 0
  }

  lemma WaitLess(on: seq<bool>, code: seq<nat>, v: nat)
    requires v < |on| && !on[v] && 2 * v < |code| && code[2 * v] == 0
    ensures |Waiting(on[v := true], code)| < |Waiting(on, code)|
  {
    assert Waiting(on, code) == Waiting(on[v := true], code) + {v};
  }

  lemma WaitSame(on: seq<bool>, code: seq<nat>, v: nat, top: nat)
    requires v < |on| && on[v] && 2 * v + 1 < |code| && top != 0
    ensures |Waiting(on[v := false], code[2 * v := top][2 * v + 1 := top + 1])| <= |Waiting(on, code)|
  {
    assert Waiting(on[v := false], code[2 * v := top][2 * v + 1 := top + 1]) == Waiting(on, code);
  }

  /** Only gates that some root depends on are pending or on the path. */
  ghost predicate Gates(g: Net, s: Stack) {
    && (forall u :: u in s.base ==> Needed(g, u))
    && forall k :: 0 <= k < |s.frames| ==> Needed(g, s.frames[k].node) && forall u :: u in s.frames[k].pend ==> Needed(g, u)
  }

  lemma PopGates(g: Net, s: Stack)
    requires Gates(g, s) && Pending(s) != []
    ensures Gates(g, Pop(s))
  {
    hide Needed;
    PopFrames(s);
  }

  lemma OpenGates(g: Net, s: Stack, kids: seq<nat>)
    requires Gates(g, s) && Pending(s) != []
    requires var v := Pending(s)[|Pending(s)| - 1]; forall u :: u in kids ==> Kid(g, v, u) && IsAnd(g, u)
    ensures Gates(g, Open(s, kids))
  {
    hide Needed, IsAnd, Kid;
    PopGates(g, s);
    var v := Pending(s)[|Pending(s)| - 1];
    assert v in Pending(s) && Needed(g, v);
    forall u | u in kids ensures Needed(g, u) { KidNeeded(g, v, u); }
  }

  lemma CloseGates(g: Net, s: Stack, done: seq<nat>)
    requires Gates(g, s) && s.frames != [] && AllNeeded(g, done)
    ensures Gates(g, Close(s)) && AllNeeded(g, done + [s.frames[|s.frames| - 1].node])
  {
    hide Needed;
  }

  /** The top of the stack is a gate; it has a number exactly if it is finished. */
  lemma TopGate(g: Net, s: Stack, code: seq<nat>, done: seq<nat>)
    requires WellDefined(g) && Gates(g, s) && Pending(s) != [] && CodeTable(g, code, Order(g, done))
    ensures var v := Pending(s)[|Pending(s)| - 1]; IsAnd(g, v) && v <= g.maxvar && (code[2 * v] != 0 <==> v in done)
  {
    hide CodeTable, TypesOk;
    var p := Pending(s);
    var v := p[|p| - 1];
    assert v in p;
    NeededGate(g, v);
    GateOf(g, v);
    GateNumbered(g, code, done, v);
  }

  lemma NodeFresh(g: Net, s: Stack, on: seq<bool>, code: seq<nat>, done: seq<nat>)
    requires WellDefined(g) && Walk(g, s, on, done) && s.frames != [] && CodeTable(g, code, Order(g, done))
    ensures var v := s.frames[|s.frames| - 1].node;
            IsAnd(g, v) && 0 < v <= g.maxvar && v !in Order(g, done) && 2 * v + 1 < |code|
  {
    hide CodeTable, TypesOk;
    var v := s.frames[|s.frames| - 1].node;
    GateOf(g, v);
    GateNumbered(g, code, done, v);
  }

  lemma OrderMore(g: Net, done: seq<nat>, v: nat)
    ensures Order(g, done + [v]) == Order(g, done) + [v]
  {
  }

  lemma PendingInRange(g: Net, s: Stack, on: seq<bool>, done: seq<nat>)
    requires Walk(g, s, on, done)
    ensures |on| == |g.types|
  {
  }
}
