/** The kernel of the SAT solver: propagation, conflict analysis and search. */
module Kernels {
  import opened Lbools
  import opened Literals
  import opened Trails
  import opened Watching
  import opened Meaning
  import opened Learning
  import opened SearchState
  import opened Restarts

  /** `u` continues `t` on the same decision level with implied literals only. */
  ghost predicate Grown(t: Trail, u: Trail) {
    && u.lim == t.lim && u.Size() == t.Size() && t.lits <= u.lits
    && |t.reason| == |u.reason| && |t.level| == |u.level|
    && (forall k :: 0 <= k < |t.lits| && t.lits[k].v < |t.reason| && t.lits[k].v < |t.level| ==>
          u.reason[t.lits[k].v] == t.reason[t.lits[k].v] && u.level[t.lits[k].v] == t.level[t.lits[k].v])
    && forall k :: |t.lits| <= k < |u.lits| && u.lits[k].v < |u.reason| && u.lits[k].v < |u.level| ==>
         u.reason[u.lits[k].v] >= 0
  }

  lemma GrownRefl(t: Trail)
    ensures Grown(t, t)
  {
  }

  lemma GrownTrans(t: Trail, u: Trail, v: Trail)
    requires Grown(t, u) && Grown(u, v)
    ensures Grown(t, v)
  {
    forall k | 0 <= k < |t.lits| ensures v.lits[k] == t.lits[k] { assert u.lits[k] == t.lits[k]; }
    forall k | |t.lits| <= k < |v.lits| && v.lits[k].v < |v.reason| && v.lits[k].v < |v.level|
      ensures v.reason[v.lits[k].v] >= 0 {
      if k < |u.lits| { assert v.lits[k] == u.lits[k]; }
    }
  }

  lemma GrownEnqueue(t: Trail, l: Lit, from: nat)
    requires TrailOk(t) && l.v < t.Size() && t.Val(l) == LUndef
    ensures Grown(t, Enqueued(t, l, from))
  {
  }

  /** `p` is a literal of the current level whose watch list has index `q`. */
  ghost predicate Current(t: Trail, p: Lit, q: nat) {
    Sizes(t) && p.v < t.Size() && t.Val(p) == LTrue && t.level[p.v] == |t.lim| && t.pos[p.v] >= t.Base() && q == ToInt(p)
  }

  lemma CurrentOnly(t: Trail, p: Lit, q: nat)
    requires Current(t, p, q)
    ensures forall l: Lit :: ToInt(Neg(l)) == q ==> l == Neg(p) && t.level[l.v] == |t.lim| && t.pos[l.v] >= t.Base()
  {
  }

  ghost predicate AllFalse(t: Trail, c: Clause) {
    forall j :: 0 <= j < |c| ==> t.Val(c[j]) == LFalse
  }

  class Solver {
    var ca: seq<Clause>
    var dead: seq<bool>
    var learnt: seq<bool>
    var watches: seq<seq<Watcher>>
    var dirty: seq<bool>
    var assigns: seq<LB>
    var reason: seq<int>
    var level: seq<nat>
    var trail: seq<Lit>
    var trailLim: seq<nat>
    var qhead: nat
    var ok: bool
    var seen: seq<nat>
    var toClear: seq<Lit>
    var decision: seq<bool>
    var polarity: seq<bool>
    var assumptions: seq<Lit>
    var conflict: set<Lit>
    var removeSatisfied: bool
    var releasedVars: seq<nat>
    var freeVars: seq<nat>
    ghost var pos: seq<nat>
    ghost var trimmed: set<Lit>

    ghost function T(): Trail
      reads this`assigns, this`reason, this`level, this`pos, this`trail, this`trailLim
    {
      Trail(assigns, reason, level, pos, trail, trailLim)
    }

    ghost function D(): Db
      reads this`ca, this`dead, this`learnt, this`watches, this`dirty, this`trimmed
    {
      Db(ca, dead, learnt, watches, dirty, trimmed)
    }

    /** The database with `ws` as the list with index `q`. */
    ghost function With(q: nat, ws: seq<Watcher>): Db
      requires q < |watches|
      reads this`ca, this`dead, this`learnt, this`watches, this`dirty, this`trimmed
    {
      D().(watches := watches[q := ws])
    }

    method UncheckedEnqueue(p: Lit, from: int)
      requires Sizes(T()) && p.v < |assigns|
      modifies this`assigns, this`reason, this`level, this`pos, this`trail
      ensures T() == Enqueued(old(T()), p, from)
    {
      assigns := assigns[p.v := FromBool(!p.neg)];
      reason := reason[p.v := from];
      level := level[p.v := |trailLim|];
      pos := pos[p.v := |trail|];
      trail := trail + [p];
    }

    // ---------- propagation ----------

    /** Brings the propagated literal to the second place of the clause. */
    method FrontWatch(p: Lit, cr: nat, ghost q: nat, ghost ws: seq<Watcher>, ghost place: nat, ghost pending: set<nat>)
      requires q < |watches| && Kernel(T(), With(q, ws), place, pending, q) && Current(T(), p, q)
      requires D().Live(cr) && Watched(ca[cr], q)
      modifies this`ca
      ensures Kernel(T(), With(q, ws), place, pending, q) && D().Live(cr) && |ca[cr]| >= 2 && ca[cr][1] == Neg(p)
      ensures Reordered(old(D()), D()) && |ca| == |old(ca)|
    {
      hide TrailOk, DbOk, ReasonsOk, WatchOk, Kernel;
      ReorderedRefl(D());
      if ca[cr][0] == Neg(p) {
        SwapOk(|assigns|, ca[cr], 0, 1);
        SwapWatches(T(), With(q, ws), place, pending, q, cr);
        ghost var d := With(q, ws);
        ca := ca[cr := Swap(ca[cr], 0, 1)];
        assert With(q, ws) == WithClause(d, cr, Swap(d.ca[cr], 0, 1));
      }
    }

    /** The place of a literal of the clause that may be watched instead. */
    method FindWatch(c: Clause) returns (k: nat)
      requires |c| >= 2
      ensures 2 <= k <= |c| && (k < |c| ==> Value(assigns, c[k]) != LFalse)
      ensures k == |c| ==> forall j :: 2 <= j < |c| ==> Value(assigns, c[j]) == LFalse
    {
      k := 2;
      while k < |c| && Value(assigns, c[k]) == LFalse
        invariant 2 <= k <= |c| && forall j :: 2 <= j < k ==> Value(assigns, c[j]) == LFalse
      {
        k := k + 1;
      }
    }

    /** The clause is watched by its literal `k` from now on. */
    method MoveTo(p: Lit, v: Watcher, k: nat, ghost q: nat, ghost w: Watcher, ghost kept: seq<Watcher>,
                  ghost rest: seq<Watcher>, ghost place: nat)
      requires q < |watches| && Kernel(T(), With(q, kept + [w] + rest), place, Crefs([w] + rest), q)
      requires D().Live(w.cref) && 1 < k < |ca[w.cref]| && ca[w.cref][1] == Neg(p) && ToInt(p) == q
      requires v == Watcher(w.cref, ca[w.cref][0]) && T().Val(v.blocker) != LTrue && T().Val(ca[w.cref][k]) != LFalse
      modifies this`ca, this`watches
      ensures |watches| == |old(watches)| && |ca| == |old(ca)| && Reordered(old(D()), D())
      ensures Kernel(T(), With(q, kept + rest), place, Crefs(rest), q)
    {
      hide Kernel, Crefs, TrailOk, Same, Reordered, Swap, Without;
      var cr := v.cref;
      ghost var ws := kept + [w] + rest;
      ghost var d, d0 := With(q, ws), D();
      WatchIndex(T(), d, place, Crefs([w] + rest), q, cr, k);
      assert Without(ws, |kept|) == kept + rest by { WithoutMiddle(kept, w, rest); }
      MoveWatch(T(), d, place, Crefs([w] + rest), q, |kept|, cr, k);
      SwapReordered(|assigns|, D(), cr, 1, k);
      ca := ca[cr := Swap(ca[cr], 1, k)];
      SwapSecond(d0.ca[cr], k);
      var h := ToInt(Neg(ca[cr][1]));
      watches := watches[h := watches[h] + [v]];
      assert With(q, kept + rest) == Moved(d, q, |kept|, cr, k);
      ReorderedLists(d0, WithClause(d0, cr, ca[cr]), D());
      Fewer(T(), With(q, kept + rest), place, w, rest, q);
    }

    /** No true literal has been found on the clause: look for another literal to watch. */
    method Rewatch(p: Lit, w: Watcher, v: Watcher, ghost q: nat, ghost kept: seq<Watcher>, ghost rest: seq<Watcher>,
                   ghost place: nat)
      returns (keep: bool, conflict: bool)
      requires q < |watches| && Kernel(T(), With(q, kept + [w] + rest), place, Crefs([w] + rest), q) && Current(T(), p, q)
      requires place <= |trail| && D().Live(w.cref) && Learned(T(), D())
      requires |ca[w.cref]| >= 2 && ca[w.cref][1] == Neg(p)
      requires v == Watcher(w.cref, ca[w.cref][0]) && T().Val(v.blocker) != LTrue
      modifies this`ca, this`watches, this`assigns, this`reason, this`level, this`pos, this`trail
      ensures |watches| == |old(watches)| && |ca| == |old(ca)| && Learned(T(), D()) && SameProblem(old(T()), old(D()), T(), D())
      ensures Grown(old(T()), T()) && Current(T(), p, q)
      ensures conflict ==> keep && AllFalse(T(), ca[w.cref])
      ensures Kernel(T(), With(q, kept + (if keep then [v] else []) + rest), place, Crefs(if conflict then [v] + rest else rest), q)
    {
      hide Kernel, Crefs, TrailOk, Learned, SameProblem, Reordered, Same, Grown, Watched, ToInt;
      ghost var ws, vs := kept + [w] + rest, kept + [v] + rest;
      ghost var t, d := T(), D();
      GrownRefl(t);
      var k := FindWatch(ca[w.cref]);
      if k < |ca[w.cref]| {
        MoveTo(p, v, k, q, w, kept, rest, place);
        ReorderedProblem(t, d, D());
        assert kept + [] + rest == kept + rest;
        return false, false;
      }
      assert ws[|kept| := v] == vs && v.blocker in ca[v.cref];
      assert With(q, vs) == WithEntry(With(q, ws), q, |kept|, v);
      NewBlocker(T(), With(q, ws), place, Crefs([w] + rest), q, |kept|, v);
      SameRefl(t, d);
      if Value(assigns, v.blocker) == LFalse {
        SameCrefs(w, v, rest);
        return true, true;
      }
      UnitClause(T(), With(q, vs), place, Crefs([w] + rest), q, p, v.cref);
      MayEnqueueLists(t, With(q, vs), d, v.blocker, v.cref);
      EnqueueProblem(t, d, v.blocker, v.cref);
      UncheckedEnqueue(v.blocker, v.cref);
      Fewer(T(), With(q, vs), place, w, rest, q);
      return true, false;
    }

    /** One watcher on the list of `p`: kept, moved to another list, or the clause propagates or is in conflict. */
    method Visit(p: Lit, w: Watcher, ghost q: nat, ghost kept: seq<Watcher>, ghost rest: seq<Watcher>, ghost place: nat)
      returns (keep: bool, v: Watcher, conflict: bool)
      requires q < |watches| && Kernel(T(), With(q, kept + [w] + rest), place, Crefs([w] + rest), q) && Current(T(), p, q)
      requires place <= |trail| && D().Live(w.cref) && Learned(T(), D())
      modifies this`ca, this`watches, this`assigns, this`reason, this`level, this`pos, this`trail
      ensures |watches| == |old(watches)| && |ca| == |old(ca)| && Learned(T(), D()) && SameProblem(old(T()), old(D()), T(), D())
      ensures Grown(old(T()), T()) && Current(T(), p, q)
      ensures conflict ==> keep && v.cref == w.cref && AllFalse(T(), ca[w.cref])
      ensures Kernel(T(), With(q, kept + (if keep then [v] else []) + rest), place, Crefs(if conflict then [v] + rest else rest), q)
    {
      hide Kernel, Crefs, TrailOk, Learned, SameProblem, Reordered, Same, Current, Grown, Watched, ToInt, Neg, Swap, Moved, Without;
      ghost var ws := kept + [w] + rest;
      ghost var t, d := T(), D();
      EntryHere(T(), With(q, ws), place, Crefs([w] + rest), q, |kept|);
      GrownRefl(t);
      if Value(assigns, w.blocker) == LTrue {
        BlockerTrue(T(), With(q, ws), place, Crefs([w] + rest), q, p, w.cref, w.blocker);
        Fewer(T(), With(q, ws), place, w, rest, q);
        SameRefl(t, d);
        return true, w, false;
      }
      FrontWatch(p, w.cref, q, ws, place, Crefs([w] + rest));
      ReorderedProblem(t, d, D());
      var first := ca[w.cref][0];
      v := Watcher(w.cref, first);
      if first != w.blocker && Value(assigns, first) == LTrue {
        ghost var ws' := kept + [v] + rest;
        assert ws[|kept| := v] == ws';
        assert With(q, ws') == WithEntry(With(q, ws), q, |kept|, v);
        NewBlocker(T(), With(q, ws), place, Crefs([w] + rest), q, |kept|, v);
        BlockerTrue(T(), With(q, ws'), place, Crefs([w] + rest), q, p, w.cref, first);
        Fewer(T(), With(q, ws'), place, w, rest, q);
        return true, v, false;
      }
      ghost var e := D();
      keep, conflict := Rewatch(p, w, v, q, kept, rest, place);
      SameTrans(t, d, t, e, T(), D());
    }

    /** The watch list with index `q`, rid of the watchers of removed clauses. */
    method Lookup(q: nat, ghost place: nat)
      requires q < |watches| && Kernel(T(), D(), place, {}, 0)
      modifies this`watches, this`dirty
      ensures |watches| == |old(watches)| && q < |dirty| && !dirty[q] && Kernel(T(), D(), place, {}, 0)
      ensures Reordered(old(D()), D())
    {
      hide Kernel, Reordered;
      KernelSizes(T(), D(), place);
      ReorderedRefl(D());
      if dirty[q] {
        var ws := watches[q];
        var i, j := 0, 0;
        while i < |ws|
          invariant q < |watches| && 0 <= j <= i <= |ws| == |watches[q]| && ws[i..] == watches[q][i..]
          invariant ws[..j] == LiveWatchers(watches[q][..i], dead) && T() == old(T()) && D() == old(D())
        {
          FilterNext(watches[q], i, dead);
          EntryExists(T(), D(), place, q, i);
          assert ws[i + 1..] == ws[i..][1..] == watches[q][i..][1..] == watches[q][i + 1..];
          if !dead[ws[i].cref] {
            ws := ws[j := ws[i]];
            j := j + 1;
          }
          i := i + 1;
        }
        assert watches[q][..i] == watches[q];
        CleanKeeps(T(), D(), place, q);
        ghost var d := D();
        watches := watches[q := ws[..j]];
        dirty := dirty[q := false];
        ReorderedLists(d, d, D());
      }
    }

    /** Visits the watcher at place `i` and keeps it, if at all, at place `j`. */
    method VisitAt(p: Lit, q: nat, ws: seq<Watcher>, i: nat, j: nat, ghost place: nat)
      returns (vs: seq<Watcher>, h: nat, conflict: bool)
      requires q < |watches| && q < |dirty| && !dirty[q] && j <= i < |ws| && T().Base() <= place <= |trail|
      requires Kernel(T(), With(q, ws[..j] + ws[i..]), place, Crefs(ws[i..]), q)
      requires Current(T(), p, q) && Learned(T(), D())
      modifies this`ca, this`watches, this`assigns, this`reason, this`level, this`pos, this`trail
      ensures |watches| == |old(watches)| && |ca| == |old(ca)| && Learned(T(), D()) && SameProblem(old(T()), old(D()), T(), D())
      ensures Grown(old(T()), T()) && Current(T(), p, q)
      ensures |vs| == |ws| && h <= i + 1 && vs[i + 1..] == ws[i + 1..]
      ensures conflict ==> D().Live(ws[i].cref) && AllFalse(T(), ca[ws[i].cref])
      ensures conflict ==> Kernel(T(), With(q, vs[..h] + ws[i + 1..]), T().Base(), {}, 0)
      ensures !conflict ==> Kernel(T(), With(q, vs[..h] + ws[i + 1..]), place, Crefs(ws[i + 1..]), q)
    {
      hide Kernel, Crefs, TrailOk, Learned, SameProblem, Reordered, Current, Grown, ToInt, AllFalse;
      ghost var t, ks, rest := T(), ws[..j], ws[i + 1..];
      EntryLive(t, With(q, ws[..j] + ws[i..]), place, Crefs(ws[i..]), q, j);
      assert ws[i..] == [ws[i]] + rest;
      assert ks + ws[i..] == ks + [ws[i]] + rest;
      var keep, v;
      keep, v, conflict := Visit(p, ws[i], q, ks, rest, place);
      GrownLength(t, T());
      vs, h := ws, j;
      if keep {
        vs := ws[j := v];
        h := j + 1;
        assert vs[..h] == ks + [v];
      } else {
        assert ks + [] + rest == ks + rest;
      }
      if conflict {
        ConflictHere(T(), With(q, ks + [v] + rest), place, Crefs([v] + rest), q, p);
      }
    }

    /** Moves the part of a watch list that has not been visited up to the part that is kept. */
    method CopyRest(ws: seq<Watcher>, i: nat, j: nat) returns (vs: seq<Watcher>)
      requires j <= i <= |ws|
      ensures vs == ws[..j] + ws[i..]
    {
      vs := ws;
      var k, h := i, j;
      while k < |ws|
        invariant j <= h <= k <= |ws| == |vs| && vs[..h] + vs[k..] == ws[..j] + ws[i..]
      {
        assert vs[k..] == [vs[k]] + vs[k + 1..];
        vs := vs[h := vs[k]];
        k, h := k + 1, h + 1;
      }
      vs := vs[..h];
    }

    /** The watch list of the literal that is to be propagated next, with all its clauses pending. */
    method OpenList(p: Lit) returns (q: nat, ws: seq<Watcher>)
      requires 0 < qhead <= |trail| && p == trail[qhead - 1] && T().Base() < qhead
      requires Kernel(T(), D(), qhead - 1, {}, 0) && Learned(T(), D())
      modifies this`watches, this`dirty
      ensures Learned(T(), D()) && SameProblem(old(T()), old(D()), T(), D()) && Current(T(), p, q)
      ensures q < |watches| && q < |dirty| && !dirty[q] && Kernel(T(), With(q, ws), qhead, Crefs(ws), q)
    {
      hide Kernel, Crefs, TrailOk, Learned, SameProblem, Reordered, Current, ToInt;
      TrueHere(T(), D(), qhead - 1);
      StartLiteral(T(), D(), qhead - 1, 0);
      q := ToInt(p);
      ghost var d := D();
      Lookup(q, qhead - 1);
      ReorderedProblem(T(), d, D());
      StartLiteral(T(), D(), qhead - 1, 0);
      ws := watches[q];
      assert watches[q := ws] == watches;
    }

    /** Works off the watch list of `p`, compacting it in place. */
    method WorkList(p: Lit, q: nat, list: seq<Watcher>) returns (ws: seq<Watcher>, confl: int)
      requires q < |watches| && q < |dirty| && !dirty[q] && T().Base() <= qhead <= |trail|
      requires Kernel(T(), With(q, list), qhead, Crefs(list), q) && Current(T(), p, q) && Learned(T(), D())
      modifies this`ca, this`watches, this`assigns, this`reason, this`level, this`pos, this`trail, this`qhead
      ensures q < |watches| && Learned(T(), D()) && SameProblem(old(T()), old(D()), T(), D()) && Grown(old(T()), T())
      ensures confl < 0 ==> qhead == old(qhead) && Kernel(T(), With(q, ws), qhead, Crefs([]), q)
      ensures confl >= 0 ==> D().Live(confl) && AllFalse(T(), ca[confl])
      ensures confl >= 0 ==> qhead == |trail| && Kernel(T(), With(q, ws), T().Base(), {}, 0)
    {
      hide Kernel, Crefs, TrailOk, Learned, SameProblem, Reordered, Current, Grown, ToInt, AllFalse;
      ghost var place := qhead;
      ghost var t, d := T(), D();
      GrownRefl(t);
      SameRefl(t, d);
      var i, j := 0, 0;
      ws, confl := list, -1;
      assert ws[..0] + ws[0..] == ws && ws[0..] == ws;
      while i < |ws|
        invariant 0 <= j <= i <= |ws| && q < |watches| && q < |dirty| && !dirty[q]
        invariant Learned(T(), D()) && SameProblem(t, d, T(), D()) && Grown(t, T()) && Current(T(), p, q)
        invariant T().Base() <= place <= |trail|
        invariant confl < 0 ==> qhead == place && Kernel(T(), With(q, ws[..j] + ws[i..]), place, Crefs(ws[i..]), q)
        invariant confl >= 0 ==> i == |ws| && qhead == |trail| && D().Live(confl) && AllFalse(T(), ca[confl])
        invariant confl >= 0 ==> Kernel(T(), With(q, ws[..j] + ws[i..]), T().Base(), {}, 0)
      {
        ghost var u, e := T(), D();
        var cr := ws[i].cref;
        var conflict;
        ws, j, conflict := VisitAt(p, q, ws, i, j, place);
        i := i + 1;
        Onward(t, d, u, e, T(), D());
        if conflict {
          confl := cr;
          ws := CopyRest(ws, i, j);
          qhead := |trail|;
          i, j := |ws|, |ws|;
          assert ws[..j] + ws[i..] == ws;
        }
      }
      assert ws[..j] + ws[i..] == ws[..j] && ws[i..] == [];
      ws := ws[..j];
    }

    /** Propagates `p`. */
    method PropagateLit(p: Lit) returns (confl: int)
      requires 0 < qhead <= |trail| && p == trail[qhead - 1] && T().Base() < qhead
      requires Kernel(T(), D(), qhead - 1, {}, 0) && Learned(T(), D())
      modifies this`ca, this`watches, this`dirty, this`assigns, this`reason, this`level, this`pos, this`trail, this`qhead
      ensures Learned(T(), D()) && SameProblem(old(T()), old(D()), T(), D()) && Grown(old(T()), T())
      ensures confl < 0 ==> Kernel(T(), D(), qhead, {}, 0) && qhead == old(qhead)
      ensures confl >= 0 ==> D().Live(confl) && AllFalse(T(), ca[confl])
      ensures confl >= 0 ==> qhead == |trail| && Kernel(T(), D(), T().Base(), {}, 0)
    {
      hide Kernel, Crefs, TrailOk, Learned, SameProblem, Reordered, Current, Grown, ToInt, AllFalse;
      ghost var t, d := T(), D();
      var q, list := OpenList(p);
      ghost var u, e := T(), D();
      var ws;
      ws, confl := WorkList(p, q, list);
      ghost var v, f := T(), D();
      watches := watches[q := ws];
      FinishList(v, f, D(), qhead, q);
      SameTwice(t, d, u, e, v, f, v, D());
    }

    /** The solver is not in conflict; literals behind `qhead` still have to be propagated. */
    ghost predicate Ready()
      reads this`assigns, this`reason, this`level, this`pos, this`trail, this`trailLim, this`qhead,
            this`ca, this`dead, this`learnt, this`watches, this`dirty, this`trimmed
    {
      Kernel(T(), D(), qhead, {}, 0) && Learned(T(), D()) && T().Base() <= qhead <= |trail|
    }

    /** All literals of clause `confl` are false. */
    ghost predicate InConflict(confl: int)
      reads this
    {
      && Kernel(T(), D(), T().Base(), {}, 0) && Learned(T(), D()) && qhead == |trail|
      && D().Live(confl) && AllFalse(T(), ca[confl])
    }

    method Propagate() returns (confl: int)
      requires Ready()
      modifies this`ca, this`watches, this`dirty, this`assigns, this`reason, this`level, this`pos, this`trail, this`qhead
      ensures SameProblem(old(T()), old(D()), T(), D()) && Grown(old(T()), T())
      ensures if confl < 0 then Ready() && qhead == |trail| else InConflict(confl)
    {
      hide Kernel, Crefs, TrailOk, Learned, SameProblem, Grown, AllFalse;
      ghost var t, d := T(), D();
      GrownRefl(t);
      SameRefl(t, d);
      KernelBound(t, d, qhead);
      confl := -1;
      while qhead < |trail|
        invariant if confl < 0 then Ready() else InConflict(confl)
        invariant SameProblem(t, d, T(), D()) && Grown(t, T()) && |assigns| == |old(assigns)| && qhead <= |assigns|
        decreases |assigns| - qhead
      {
        ghost var u, e := T(), D();
        var p := trail[qhead];
        qhead := qhead + 1;
        confl := PropagateLit(p);
        GrownTrans(t, u, T());
        SameTrans(t, d, u, e, T(), D());
        GrownLength(u, T());
        KernelBound(T(), D(), if confl < 0 then qhead else T().Base());
      }
    }

    // ---------- conflict analysis ----------

    /** Every mark can be undone. */
    ghost predicate Tracked()
      reads this`seen, this`toClear
    {
      && (forall v :: 0 <= v < |seen| && seen[v] != UNDEF ==> v in VarsOf(toClear))
      && forall l :: l in toClear ==> l.v < |seen|
    }

    method MarkVar(l: Lit, mark: nat)
      requires l.v < |seen| && Tracked()
      modifies this`seen, this`toClear
      ensures seen == old(seen)[l.v := mark] && Tracked()
    {
      seen := seen[l.v := mark];
      toClear := toClear + [l];
      assert l in toClear && forall k :: k in old(toClear) ==> k in toClear;
    }

    /** All undecided literals on the stack are known to fail. */
    method FailStack(stack: seq<Frame>, ghost src: set<nat>)
      requires Memo(T(), D(), src, seen) && Tracked()
      requires forall k :: 0 <= k < |stack| ==> stack[k].l.v < |seen| && !Redundant(T(), D(), src, pos[stack[k].l.v])
      modifies this`seen, this`toClear
      ensures Memo(T(), D(), src, seen) && Tracked()
    {
      hide Redundant;
      for k := 0 to |stack|
        invariant Memo(T(), D(), src, seen) && Tracked()
      {
        if seen[stack[k].l.v] == UNDEF {
          MarkMemo(T(), D(), src, seen, stack[k].l.v, FAILED);
          MarkVar(stack[k].l, FAILED);
        }
      }
    }

    /** A literal found to be redundant is remembered. */
    method MarkRemovable(p: Lit, ghost src: set<nat>)
      requires p.v < |seen| && Memo(T(), D(), src, seen) && Tracked() && Redundant(T(), D(), src, pos[p.v])
      modifies this`seen, this`toClear
      ensures Memo(T(), D(), src, seen) && Tracked()
      ensures seen == if old(seen)[p.v] == UNDEF then old(seen)[p.v := REMOVABLE] else old(seen)
      ensures old(seen)[p.v] == UNDEF ==> |UndecidedVars(seen)| < |UndecidedVars(old(seen))|
    {
      hide Redundant, UndecidedVars;
      if seen[p.v] == UNDEF {
        MarkMemo(T(), D(), src, seen, p.v, REMOVABLE);
        DecideOne(seen, p.v, REMOVABLE);
        MarkVar(p, REMOVABLE);
      }
    }

    /** Whether the false literal `p0` follows from the negated marked literals before it on the trail. */
    method LitRedundant(p0: Lit, ghost src: set<nat>) returns (r: bool)
      requires TrailOk(T()) && ReasonsOk(T(), D()) && Memo(T(), D(), src, seen) && Tracked()
      requires Active(T(), D(), p0) && (seen[p0.v] == UNDEF || seen[p0.v] == SOURCE)
      modifies this`seen, this`toClear
      ensures Memo(T(), D(), src, seen) && Tracked()
      ensures r <==> Redundant(T(), D(), src, pos[p0.v])
    {
      hide TrailOk, ReasonsOk, Memo, Redundant, Waiting, Undecided, Covered, UndecidedVars;
      ghost var t, d := T(), D();
      var i: nat, stack: seq<Frame> := 1, [];
      var p := p0;
      StartTest(t, d, src, seen, p0);
      while true
        invariant T() == t && D() == d && Testing(t, d, src, seen, stack, p, i) && Tracked()
        invariant p0 == if stack == [] then p else stack[0].l
        decreases |UndecidedVars(seen)|, t.pos[p.v], |ReasonOf(t, d, p)| - i
      {
        var c := ca[reason[p.v]];
        if i < |c| {
          var l := c[i];
          ParentFalse(t, d, p, i);
          MemoRange(t, d, src, seen, l.v);
          if level[l.v] == 0 || seen[l.v] == SOURCE || seen[l.v] == REMOVABLE {
            Skip(t, d, src, seen, stack, p, i);
            i := i + 1;
          } else if reason[l.v] < 0 || seen[l.v] == FAILED {
            Fail(t, d, src, seen, stack, p, i);
            FailStack(stack + [Frame(0, p)], src);
            return false;
          } else {
            Descend(t, d, src, seen, stack, p, i);
            stack, i, p := stack + [Frame(i, p)], 1, l;
          }
        } else {
          AllCovered(t, d, src, p, i);
          MemoRange(t, d, src, seen, p.v);
          if stack != [] { Return(t, d, src, seen, stack, p, i); }
          MarkRemovable(p, src);
          if stack == [] {
            return true;
          }
          var top := stack[|stack| - 1];
          i, p := top.i + 1, top.l;
          stack := stack[..|stack| - 1];
        }
      }
    }

    /** Marks the literals of a clause; those of the current level are counted, the others are collected. */
    method Absorb(c: Clause, from: nat, out: Clause, pathC: nat, ghost hi: nat) returns (more: Clause, count: nat)
      requires TrailOk(T()) && Marks(T(), seen, out, hi) && pathC == |OpenPlaces(T(), seen)|
      requires from <= |c| && forall j :: from <= j < |c| ==> FalseBefore(T(), c[j], hi)
      modifies this`seen
      ensures Marks(T(), seen, more, hi) && pathC <= count == |OpenPlaces(T(), seen)| && Absorbed(T(), seen, c, from)
      ensures |seen| == |old(seen)| == |pos|
      ensures forall v :: 0 <= v < |old(seen)| && old(seen)[v] == SOURCE ==> v < |seen| && seen[v] == SOURCE
      ensures MarksAdded(old(seen), seen, c, from)
    {
      hide TrailOk, Marks, OpenPlaces;
      more, count := out, pathC;
      MarksSize(T(), seen, out, hi);
      for j := from to |c|
        invariant Marks(T(), seen, more, hi) && pathC <= count == |OpenPlaces(T(), seen)| && |seen| == |old(seen)| == |pos|
        invariant forall k :: from <= k < j ==> c[k].v < |pos| && (pos[c[k].v] < T().Roots() || seen[c[k].v] == SOURCE)
        invariant forall v :: 0 <= v < |seen| && old(seen)[v] == SOURCE ==> seen[v] == SOURCE
        invariant MarksAdded(old(seen), seen, c, from)
      {
        var q := c[j];
        LiteralMark(T(), seen, more, hi, q);
        if seen[q.v] == UNDEF && level[q.v] > 0 {
          if level[q.v] >= |trailLim| {
            MarkOpen(T(), seen, more, hi, q);
            count := count + 1;
          } else {
            MarkLow(T(), seen, more, hi, q);
            more := more + [q];
          }
          seen := seen[q.v := SOURCE];
        }
      }
    }

    /** The last marked place of the trail up to `index`. */
    method NextMarked(index: nat, ghost low: nat) returns (k: nat)
      requires index < |trail| && low <= index && (forall j :: 0 <= j < |trail| ==> trail[j].v < |seen|)
      requires seen[trail[low].v] == SOURCE
      ensures low <= k <= index && seen[trail[k].v] != UNDEF
      ensures forall j :: k < j <= index ==> seen[trail[j].v] == UNDEF
    {
      k := index;
      while seen[trail[k].v] == UNDEF
        invariant low <= k <= index && forall j :: k < j <= index ==> seen[trail[j].v] == UNDEF
        decreases k
      {
        k := k - 1;
      }
    }

    /** Resolves the conflict clause until only one literal of the current level is left, whose mark is removed. */
    method FirstUip(confl: nat) returns (p: Lit, out: Clause)
      requires InConflict(confl) && |trailLim| > 0 && Marks(T(), seen, [], |trail|) && OpenPlaces(T(), seen) == {}
      modifies this`seen
      ensures |seen| == |old(seen)| && p in trail && p.v < |seen| && pos[p.v] >= T().Base() && Marks(T(), seen, out, pos[p.v])
      ensures OpenPlaces(T(), seen) == {} && Refuted(T(), D(), seen[p.v := SOURCE])
      ensures MarkedPlaces(T(), seen[p.v := SOURCE]) == UipPlaces(T(), D(), Mentioned(T(), ca[confl], 0), |trail|)
    {
      hide TrailOk, Marks, OpenPlaces, Refuted, Absorbed, ReasonsOk, DbOk, WatchOk, Learned, Trail.Base;
      hide UipPlaces, MarkedPlaces, MarksAdded, Mentioned;
      var pathC;
      ConflictFalse(T(), D(), confl);
      out, pathC := Absorb(ca[confl], 0, [], 0, |trail|);
      StartPlaces(T(), D(), old(seen), seen, out, confl);
      ConflictOpens(T(), D(), seen, confl);
      ConflictRefuted(T(), D(), seen, confl);
      var hi := |trail|;
      while true
        invariant 0 < hi <= |trail| && pathC > 0 && pathC == |OpenPlaces(T(), seen)|
        invariant |seen| == |old(seen)| == |pos| && Marks(T(), seen, out, hi) && Refuted(T(), D(), seen)
        invariant UipPlaces(T(), D(), MarkedPlaces(T(), seen), hi) == UipPlaces(T(), D(), Mentioned(T(), ca[confl], 0), |trail|)
        decreases hi
      {
        ghost var low := OpenPlace(T(), seen, out, hi);
        TrailVars(T(), seen, out, hi);
        var k := NextMarked(hi - 1, low);
        p := trail[k];
        ghost var before := seen;
        MarkedSource(T(), seen, out, hi, p.v);
        Unmark(T(), D(), seen, out, hi, k);
        UipFound(T(), D(), seen, out, hi, k);
        seen := seen[p.v := UNDEF];
        pathC := pathC - 1;
        hi := k;
        if pathC == 0 {
          assert before == seen[p.v := SOURCE];
          UipEnds(T(), D(), before, k);
          TrailPlace(T(), k);
          return;
        }
        ReasonFalse(T(), D(), k);
        out, pathC := Absorb(ca[reason[p.v]], 1, out, pathC, k);
        ResolveRefuted(T(), D(), before, seen, k);
        UipGoesOn(T(), D(), before, seen, out, k);
        OpenBelow(T(), seen, out, k);
      }
    }

    /** Drops the redundant literals. */
    method Minimize(out: Clause, ghost src: set<nat>) returns (kept: Clause)
      requires TrailOk(T()) && ReasonsOk(T(), D()) && Memo(T(), D(), src, seen) && Tracked()
      requires forall l :: l in out ==> T().Val(l) == LFalse && l.v < |seen| && l.v in src
      modifies this`seen, this`toClear
      ensures Tracked() && |seen| == |pos|
      ensures forall l :: l in kept <==> l in out && !Redundant(T(), D(), src, pos[l.v])
      ensures ClauseOk(|assigns|, out) ==> ClauseOk(|assigns|, kept)
    {
      hide TrailOk, ReasonsOk, Redundant, Memo, ClauseOk;
      kept := [];
      EmptyOk(|assigns|);
      MemoAll(T(), D(), src, seen);
      for i := 0 to |out|
        invariant Memo(T(), D(), src, seen) && Tracked() && |seen| == |pos|
        invariant forall l :: l in kept <==> l in out[..i] && !Redundant(T(), D(), src, pos[l.v])
        invariant ClauseOk(|assigns|, out) ==> ClauseOk(|assigns|, kept)
      {
        var l := out[i];
        assert out[..i + 1] == out[..i] + [l] && l in out;
        MemoSource(T(), D(), src, seen, l.v);
        TrailSizes(T());
        var redundant := false;
        if reason[l.v] < 0 {
          NoReason(T(), D(), src, l);
        } else {
          HasActive(T(), D(), l);
          redundant := LitRedundant(l, src);
          MemoAll(T(), D(), src, seen);
        }
        if !redundant {
          AppendOk(|assigns|, out, i, kept);
          kept := kept + [l];
        }
      }
      assert out[..|out|] == out;
    }

    /** Brings a literal of the highest level among the rest to the second place. */
    method SecondHighest(c: Clause) returns (r: Clause, back: nat)
      requires |c| > 0 && (forall k :: 0 <= k < |c| ==> c[k].v < |level|)
      ensures Same(r, c) && |r| == |c| && r[0] == c[0] && (ClauseOk(|assigns|, c) ==> ClauseOk(|assigns|, r))
      ensures if |c| == 1 then back == 0 else r[1].v < |level| && level[r[1].v] == back
      ensures forall l :: l in c[1..] ==> l.v < |level| && level[l.v] <= back
      ensures forall k :: 1 <= k < |r| ==> r[k] in c[1..]
    {
      r, back := c, 0;
      if |c| > 1 {
        var best := 1;
        for i := 2 to |c|
          invariant 1 <= best < i && best < |c| && forall k :: 1 <= k < i ==> level[c[k].v] <= level[c[best].v]
        {
          if level[c[i].v] > level[c[best].v] {
            best := i;
          }
        }
        SwapOk(|assigns|, c, best, 1);
        r := Swap(c, best, 1);
        back := level[r[1].v];
        forall k | 1 <= k < |r| ensures r[k] in c[1..] {
          var j := if k == 1 then best else if k == best then 1 else k;
          assert r[k] == c[j] == c[1..][j - 1];
        }
      }
    }

    /** Removes all marks. */
    method ClearMarks()
      requires Tracked()
      modifies this`seen, this`toClear
      ensures |seen| == |old(seen)| && forall v :: 0 <= v < |seen| ==> seen[v] == UNDEF
    {
      for j := 0 to |toClear|
        invariant |seen| == |old(seen)| && toClear == old(toClear)
        invariant forall v :: 0 <= v < |seen| && seen[v] != UNDEF ==> v in VarsOf(toClear[j..])
      {
        assert toClear[j..] == [toClear[j]] + toClear[j + 1..] && toClear[j] in toClear;
        seen := seen[toClear[j].v := UNDEF];
      }
      assert toClear[|toClear|..] == [];
      toClear := [];
    }

    /** No variable is marked. */
    ghost predicate Unmarked()
      reads this`seen, this`assigns
    {
      |seen| == |assigns| && forall v :: 0 <= v < |seen| ==> seen[v] == UNDEF
    }

    /** The clause learnt from a conflict, and the level to go back to. */
    method Analyze(confl: nat) returns (learnt: Clause, back: nat)
      requires InConflict(confl) && |trailLim| > 0 && Unmarked()
      modifies this`seen, this`toClear
      ensures Unmarked() && Implied(T(), D(), learnt) && Asserting(T(), learnt, back)
      ensures LearntFrom(T(), D(), confl, learnt)
    {
      hide TrailOk, Marks, OpenPlaces, Refuted, ReasonsOk, DbOk, WatchOk, Learned, Redundant, Memo, Implied, Asserting, Same, ClauseOk;
      hide UipPlaces, MarkedPlaces, Mentioned, LearntFrom;
      TrailSizes(T());
      NoMarks(T(), seen);
      var p, out := FirstUip(confl);
      ghost var marks, src := seen, Sources(seen);
      StartMemo(T(), D(), seen, out, pos[p.v]);
      toClear := [Neg(p)] + out;
      OutTracked(T(), seen, p, out, pos[p.v]);
      var kept := Minimize(out, src);
      LearntImplied(T(), D(), marks, p, out, kept);
      LearntShape(T(), marks, p, out, kept);
      learnt, back := SecondHighest([Neg(p)] + kept);
      BecomesAsserting(T(), p, kept, learnt, back);
      ImpliedSame(T(), D(), [Neg(p)] + kept, learnt);
      NowLearnt(T(), D(), confl, marks, p, out, kept, learnt);
      ClearMarks();
    }

    // ---------- going back ----------

    /** Undoes all decision levels above `target`. */
    method CancelUntil(target: nat)
      requires TrailOk(T()) && target < |trailLim|
      modifies this`assigns, this`trail, this`trailLim, this`qhead
      ensures T() == CutTo(old(T()), target) && qhead == old(trailLim)[target]
    {
      LimitPlace(T(), target);
      CutOk(T(), target);
      ghost var t := T();
      var c: nat := |trail|;
      while c > trailLim[target]
        invariant trailLim == t.lim && trail == t.lits && t.lim[target] <= c <= |t.lits|
        invariant T() == t.(assigns := Unassigned(t, c))
      {
        c := c - 1;
        NextUnassigned(t, c);
        assigns := assigns[trail[c].v := LUndef];
      }
      qhead := trailLim[target];
      trail := trail[..trailLim[target]];
      trailLim := trailLim[..target];
    }

    method AttachClause(c: Clause, isLearnt: bool) returns (cr: nat)
      requires |c| >= 2 && ToInt(Neg(c[0])) < |watches| && ToInt(Neg(c[1])) < |watches|
      modifies this`ca, this`dead, this`learnt, this`watches
      ensures cr == |old(ca)| && D() == Attached(old(D()), c, isLearnt)
    {
      cr := |ca|;
      ca, dead, learnt := ca + [c], dead + [false], learnt + [isLearnt];
      var p, q := ToInt(Neg(c[0])), ToInt(Neg(c[1]));
      watches := watches[p := watches[p] + [Watcher(cr, c[1])]];
      watches := watches[q := watches[q] + [Watcher(cr, c[0])]];
    }

    /** Goes back, adds the learnt clause and enqueues its first literal. */
    method Learn(c: Clause, back: nat)
      requires Kernel(T(), D(), T().Base(), {}, 0) && Learned(T(), D()) && Asserting(T(), c, back) && Implied(T(), D(), c)
      modifies this`ca, this`dead, this`learnt, this`watches, this`assigns, this`reason, this`level, this`pos, this`trail,
               this`trailLim, this`qhead
      ensures Ready() && SameProblem(old(T()), old(D()), T(), D())
      ensures T() == Enqueued(CutTo(old(T()), back), c[0], if |c| == 1 then -1 else |old(ca)|)
      ensures |assigns| == |old(assigns)|
      ensures if |c| == 1 then ca == old(ca) && learnt == old(learnt) else ca == old(ca) + [c] && learnt == old(learnt) + [true]
    {
      hide TrailOk, DbOk, ReasonsOk, WatchOk, Learned, Implied, SameProblem, CutTo, Attached, ClauseOk;
      ghost var t, d := T(), D();
      CutReady(t, d, c, back);
      if |c| == 1 {
        LearnUnit(t, d, c);
      } else {
        LearnClause(t, d, c, back);
      }
      CancelUntil(back);
      if |c| == 1 {
        UncheckedEnqueue(c[0], -1);
      } else {
        ghost var e := D();
        var cr := AttachClause(c, true);
        AttachedFields(e, c, true);
        UncheckedEnqueue(c[0], cr);
      }
      BaseBelow(T(), t, back, c[0]);
    }

    // ---------- the final conflict ----------

    /** Marks the literals of a reason above level 0. */
    method MarkReason(c: Clause, ghost v0: nat, ghost hi: nat)
      requires TrailOk(T()) && Trace(T(), seen, v0, hi) && |c| >= 1
      requires forall j :: 1 <= j < |c| ==> FalseBefore(T(), c[j], hi)
      modifies this`seen
      ensures Trace(T(), seen, v0, hi) && Absorbed(T(), seen, c, 1)
      ensures |seen| == |old(seen)| && forall v :: 0 <= v < |seen| && old(seen)[v] == SOURCE ==> seen[v] == SOURCE
      ensures MarksAdded(old(seen), seen, c, 1)
    {
      hide TrailOk, Trace;
      TraceSize(T(), seen, v0, hi);
      for j := 1 to |c|
        invariant Trace(T(), seen, v0, hi) && |seen| == |old(seen)| == |pos|
        invariant forall k :: 1 <= k < j ==> c[k].v < |pos| && (pos[c[k].v] < T().Roots() || seen[c[k].v] == SOURCE)
        invariant forall v :: 0 <= v < |seen| && old(seen)[v] == SOURCE ==> seen[v] == SOURCE
        invariant MarksAdded(old(seen), seen, c, 1)
      {
        TraceMark(T(), seen, v0, hi, c[j]);
        if level[c[j].v] > 0 {
          seen := seen[c[j].v := SOURCE];
        }
      }
    }

    /** Looks at place `i` of the trail: a marked decision is collected, a marked implied literal passes its mark on. */
    method CollectAt(i: nat, p: Lit, ghost got: set<nat>) returns (ghost more: set<nat>)
      requires TrailOk(T()) && ReasonsOk(T(), D()) && Learned(T(), D()) && T().Val(p) == LTrue
      requires T().Roots() <= i < |trail| && |seen| == |pos| && Trace(T(), seen, p.v, i + 1)
      requires Explains(T(), D(), seen, conflict, p) && Decisions(T(), conflict, p) && p in conflict
      requires conflict == {p} + Negated(T(), got) && Accounts(T(), D(), seen, got, pos[p.v])
      modifies this`seen, this`conflict
      ensures conflict == {p} + Negated(T(), more) && Accounts(T(), D(), seen, more, pos[p.v])
      ensures |seen| == |pos| && Trace(T(), seen, p.v, i)
      ensures Explains(T(), D(), seen, conflict, p) && Decisions(T(), conflict, p) && p in conflict
    {
      hide TrailOk, ReasonsOk, Learned, Trace, Explains, Absorbed, DbOk, WatchOk, Decisions, ReasonAt, Accounts, Negated, MarksAdded;
      ghost var t, d := T(), D();
      more := got;
      OnTrail(t, t.lits[i]);
      TrailSizes(t);
      var x := trail[i].v;
      ghost var before := seen;
      if seen[x] != UNDEF {
        TraceSource(t, seen, p.v, i + 1, x);
        TraceClear(t, seen, p.v, i);
        if reason[x] < 0 {
          ExplainsDecision(t, d, seen, conflict, p, i);
          MoreDecisions(t, conflict, p, i);
          AccountsDecision(t, d, seen, got, pos[p.v], i);
          OneMoreNegated(t, got, i);
          more := got + {i};
          conflict := conflict + {Neg(trail[i])};
          seen := seen[x := UNDEF];
        } else {
          ReasonFalse(t, d, i);
          seen := seen[x := UNDEF];
          MarkReason(ca[reason[x]], p.v, i);
          ExplainsReason(t, d, before, seen, conflict, p, i);
          AccountsReason(t, d, before, seen, got, pos[p.v], i);
        }
      } else {
        TraceSkip(t, seen, p.v, i);
      }
    }

    /** Collects negated decisions that together with the problem force `p`. */
    method AnalyzeFinal(p: Lit)
      requires TrailOk(T()) && ReasonsOk(T(), D()) && Learned(T(), D()) && Unmarked() && T().Val(p) == LTrue
      modifies this`seen, this`conflict
      ensures Unmarked() && p in conflict && Decisions(T(), conflict, p)
      ensures conflict == FinalCore(T(), D(), p)
      ensures forall m :: Problem(T(), D(), m) ==> exists l :: l in conflict && Makes(m, l)
    {
      hide TrailOk, ReasonsOk, Learned, Problem, Trace, Explains, DbOk, WatchOk, Decisions, Accounts, FinalCore;
      ghost var t, d := T(), D();
      TrailSizes(t);
      OnTrail(t, p);
      conflict := {p};
      JustOne(t, p);
      seen := seen[p.v := SOURCE];
      TraceStart(t, seen, p.v);
      ExplainsStart(t, d, seen, p);
      AccountsStart(t, d, seen, p.v);
      ghost var got: set<nat> := {};
      if |trailLim| > 0 {
        RootsBound(t);
        var i := |trail|;
        while i > trailLim[0]
          invariant T() == t && D() == d && t.Roots() <= i <= |trail| && p in conflict && |seen| == |t.pos|
          invariant Trace(t, seen, p.v, i) && Explains(t, d, seen, conflict, p) && Decisions(t, conflict, p)
          invariant conflict == {p} + Negated(t, got) && Accounts(t, d, seen, got, t.pos[p.v])
        {
          i := i - 1;
          got := CollectAt(i, p, got);
        }
      }
      TraceEnd(t, seen, p.v);
      AccountsEnd(t, d, seen, got, p);
      forall m | Problem(t, d, m) ensures exists l :: l in conflict && Makes(m, l) {
        ExplainsEnd(t, d, seen, conflict, p, m);
      }
      seen := seen[p.v := UNDEF];
    }

    // ---------- search ----------

    /** The state of the search between two steps. */
    ghost predicate Resting()
      reads this
    {
      && Ready() && Unmarked() && |decision| == |polarity| == |assigns|
      && Assumed(T(), assumptions) && forall l :: l in assumptions ==> l.v < |assigns|
    }

    ghost predicate Searching()
      reads this
    {
      Resting() && conflict == {}
    }

    /** The answer "unsatisfiable": a clause of negated assumptions that follows from the problem. Unless there is no model
        at all, it is exactly what the first false assumption depends on. */
    ghost predicate FinalConflict()
      reads this
    {
      && (forall l :: l in conflict ==> Neg(l) in assumptions)
      && (conflict != {} ==> |trailLim| < |assumptions| && T().Val(assumptions[|trailLim|]) == LFalse
                             && conflict == FinalCore(T(), D(), Neg(assumptions[|trailLim|])))
      && forall m :: Problem(T(), D(), m) ==> exists l :: l in conflict && Makes(m, l)
    }

    /** The answer "satisfiable": everything is propagated, all assumptions hold and no decision is left. */
    ghost predicate Complete()
      reads this
    {
      && Kernel(T(), D(), |trail|, {}, 0) && |decision| == |assigns|
      && (forall l :: l in assumptions ==> T().Val(l) == LTrue)
      && forall v :: 0 <= v < |assigns| && decision[v] ==> assigns[v] != LUndef
    }

    /** An upper bound on decision levels. */
    ghost function Top(): nat
      reads this
    {
      |assigns| + |assumptions|
    }

    /** Works off a conflict above level 0. */
    method Resolve(confl: nat)
      requires Disturbed(confl) && |trailLim| > 0
      modifies this`ca, this`dead, this`learnt, this`watches, this`assigns, this`reason, this`level, this`pos, this`trail,
               this`trailLim, this`qhead, this`seen, this`toClear
      ensures Searching() && SameProblem(old(T()), old(D()), T(), D()) && |assigns| == |old(assigns)|
      ensures Remaining(T(), Top()) < Remaining(old(T()), old(Top()))
      ensures exists c, back :: Backjumped(old(T()), old(D()), confl, c, back, T(), D())
    {
      hide Kernel, Learned, SameProblem, Assumed, Remaining, Asserting, Implied, CutTo, LearntFrom, Listed, Limits, Levels;
      ghost var t, d := T(), D();
      var learnt, back := Analyze(confl);
      KernelTrail(t, d, t.Base());
      AssertingSizes(t, learnt, back);
      BackSteps(t, assumptions, learnt, back, if |learnt| == 1 then -1 else |ca|);
      Learn(learnt, back);
      assert Backjumped(t, d, confl, learnt, back, T(), D());
    }

    method NewDecisionLevel()
      modifies this`trailLim
      ensures T() == NewLevel(old(T())) && |trailLim| == |old(trailLim)| + 1
    {
      trailLim := trailLim + [|trail|];
    }

    /** Opens a level with `next` as its decision. */
    method Decide(next: Lit)
      requires Searching() && qhead == |trail| && next.v < |assigns| && T().Val(next) == LUndef
      requires |trailLim| < |assumptions| ==> next == assumptions[|trailLim|]
      modifies this`assigns, this`reason, this`level, this`pos, this`trail, this`trailLim
      ensures Searching() && SameProblem(old(T()), old(D()), T(), D()) && |assigns| == |old(assigns)|
      ensures Remaining(T(), Top()) < Remaining(old(T()), old(Top()))
    {
      hide Kernel, Learned, SameProblem, Assumed, Remaining, NewLevel;
      ghost var t, d := T(), D();
      DecideSteps(t, d, assumptions, next);
      NewDecisionLevel();
      UncheckedEnqueue(next, -1);
    }

    /** Gives every assumption that already holds a level, up to the first one that is open or false. */
    method OpenAssumptions() returns (refuted: bool, found: bool, next: Lit)
      requires Searching() && qhead == |trail|
      modifies this`trailLim, this`seen, this`conflict
      ensures SameProblem(old(T()), old(D()), T(), D())
      ensures refuted ==> FinalConflict() && Resting() && Unmarked() && conflict != {}
      ensures !refuted ==> Searching() && Remaining(T(), Top()) <= Remaining(old(T()), old(Top()))
      ensures !refuted && found ==>
                |trailLim| < |assumptions| && next == assumptions[|trailLim|] && T().Val(next) == LUndef
      ensures !refuted && !found ==> |trailLim| >= |assumptions|
    {
      hide Kernel, Learned, SameProblem, Assumed, Remaining, NewLevel, Problem, Decisions, FinalCore;
      ghost var t, d := T(), D();
      SameRefl(t, d);
      refuted, found, next := false, false, Lit(0, false);
      while |trailLim| < |assumptions| && !found
        invariant Searching() && SameProblem(t, d, T(), D()) && trail == t.lits && assigns == t.assigns
        invariant Remaining(T(), Top()) <= Remaining(t, |t.assigns| + |assumptions|)
        invariant found ==> |trailLim| < |assumptions| && next == assumptions[|trailLim|] && T().Val(next) == LUndef
        decreases |assumptions| - |trailLim|, !found
      {
        var p := assumptions[|trailLim|];
        ghost var u := T();
        if Value(assigns, p) == LTrue {
          DummySteps(u, d, assumptions, qhead);
          NewDecisionLevel();
          SameTrans(t, d, u, d, T(), d);
        } else if Value(assigns, p) == LFalse {
          FinalReady(u, d, qhead, p);
          AnalyzeFinal(Neg(p));
          FinalAssumptions(u, assumptions, conflict, p);
          return true, false, next;
        } else {
          next, found := p, true;
        }
      }
    }

    /** Some unassigned decision variable with its preferred sign, if there is one. */
    method PickBranchLit() returns (found: bool, next: Lit)
      requires |decision| == |polarity| == |assigns|
      ensures found ==> next.v < |assigns| && decision[next.v] && Value(assigns, next) == LUndef
      ensures !found ==> forall v :: 0 <= v < |assigns| && decision[v] ==> assigns[v] != LUndef
    {
      for v := 0 to |assigns|
        invariant forall u :: 0 <= u < v && decision[u] ==> assigns[u] != LUndef
      {
        if decision[v] && assigns[v] == LUndef {
          return true, Lit(v, polarity[v]);
        }
      }
      return false, Lit(0, false);
    }

    /** Searches for a model that makes all assumptions true. A negative number of conflicts is no bound. */
    method Search(nofConflicts: int) returns (status: LB)
      requires Searching() && trailLim == []
      modifies this`ca, this`dead, this`learnt, this`watches, this`dirty, this`assigns, this`reason, this`level, this`pos,
               this`trail, this`trailLim, this`qhead, this`seen, this`toClear, this`conflict, this`trimmed
      ensures SameProblem(old(T()), old(D()), T(), D())
      ensures |assigns| == |old(assigns)|
      ensures status == LUndef ==> 0 <= nofConflicts <= old(Remaining(T(), Top())) && Searching() && trailLim == []
      ensures status == LFalse ==> FinalConflict() && Unmarked() && (if conflict == {} then trailLim == [] else Resting())
      ensures status == LTrue ==> Complete() && Searching()
    {
      hide Searching, Resting, SameProblem, Remaining, FinalConflict, Complete;
      ghost var t, d := T(), D();
      SameRefl(t, d);
      var conflicts: nat, done := 0, false;
      status := LUndef;
      while !done
        invariant SameProblem(t, d, T(), D()) && |assigns| == |old(assigns)|
        invariant if done then Answered(status, nofConflicts) else Searching()
        invariant if done then status == LUndef ==> nofConflicts <= old(Remaining(T(), Top()))
                  else conflicts + Remaining(T(), Top()) <= old(Remaining(T(), Top()))
        decreases !done, Remaining(T(), Top())
      {
        ghost var u, e := T(), D();
        done, status, conflicts := Round(nofConflicts, conflicts);
        SameTrans(t, d, u, e, T(), D());
      }
    }

    ghost predicate Answered(status: LB, nofConflicts: int)
      reads this
    {
      && (status == LUndef ==> nofConflicts >= 0 && Searching() && trailLim == [])
      && (status == LFalse ==> FinalConflict() && Unmarked() && (if conflict == {} then trailLim == [] else Resting()))
      && (status == LTrue ==> Complete() && Searching())
    }

    /** One round of the search: propagation, then a learnt clause after a conflict, otherwise the next decision. */
    method Round(nofConflicts: int, conflicts: nat) returns (done: bool, status: LB, count: nat)
      requires Searching()
      modifies this`ca, this`dead, this`learnt, this`watches, this`dirty, this`assigns, this`reason, this`level, this`pos,
               this`trail, this`trailLim, this`qhead, this`seen, this`toClear, this`conflict, this`trimmed
      ensures SameProblem(old(T()), old(D()), T(), D())
      ensures |assigns| == |old(assigns)|
      ensures done ==> Answered(status, nofConflicts) && (status == LUndef ==> nofConflicts <= conflicts)
      ensures !done ==> Searching() && Remaining(T(), Top()) < Remaining(old(T()), old(Top()))
      ensures !done ==> count <= conflicts + 1
    {
      hide Kernel, Learned, SameProblem, Assumed, Remaining, Problem, AllFalse, FinalConflict, Complete, Resting;
      ghost var t, d := T(), D();
      done, status, count := false, LUndef, conflicts;
      var confl := Settle();
      ghost var v, f := T(), D();
      if confl >= 0 {
        count := count + 1;
        if |trailLim| == 0 {
          RootConflictFinal(confl);
          done, status := true, LFalse;
        } else {
          Resolve(confl);
          SameTrans(t, d, v, f, T(), D());
        }
      } else if 0 <= nofConflicts <= count {
        Restart();
        done := true;
        SameTrans(t, d, v, f, T(), D());
      } else {
        var alive := CleanUp();
        ghost var w, h := T(), D();
        SameTrans(t, d, v, f, w, h);
        if alive {
          status := NextDecision();
          done := status != LUndef;
          SameTrans(t, d, w, h, T(), D());
        } else {
          done, status := true, LFalse;
        }
      }
    }

    /** What a round does before the next decision: simplification on level 0, and deletion of learnt clauses when there
        are too many of them. */
    method CleanUp() returns (alive: bool)
      requires Searching() && qhead == |trail|
      modifies this`ca, this`dead, this`watches, this`dirty, this`assigns, this`reason, this`level, this`pos, this`trail,
               this`qhead, this`trimmed
      ensures SameProblem(old(T()), old(D()), T(), D()) && |assigns| == |old(assigns)|
      ensures alive ==> Searching() && qhead == |trail| && Remaining(T(), Top()) <= Remaining(old(T()), old(Top()))
      ensures !alive ==> FinalConflict() && Unmarked() && conflict == {} && trailLim == []
    {
      hide Kernel, Learned, SameProblem, Assumed, Remaining, FinalConflict, Resting, Unmarked;
      ghost var t, d := T(), D();
      SameRefl(t, d);
      alive := true;
      if trailLim == [] {
        alive := Simplify();
      }
      if alive {
        ghost var u, e := T(), D();
        if * {
          ReduceDB();
        }
        SameRefl(u, e);
        SameTrans(t, d, u, e, T(), D());
      }
    }

    // ---------- simplification of the clauses ----------

    /** Deletes learnt clauses of three and more literals that are no reasons. Which of them, and when, depends on their
        activities and is left open. */
    method ReduceDB()
      requires Searching() && qhead == |trail|
      modifies this`dead, this`dirty, this`reason
      ensures Searching() && T() == old(T()) && SameProblem(old(T()), old(D()), T(), D()) && |dead| == |old(dead)|
      ensures forall cr :: 0 <= cr < |dead| && dead[cr] != old(dead)[cr] ==>
                dead[cr] && learnt[cr] && |ca[cr]| > 2 && !Locked(T(), D(), cr)
    {
      hide Kernel, Learned, SameProblem, Assumed, Remaining;
      ghost var t, d := T(), D();
      SameRefl(t, d);
      DbSizes();
      for cr := 0 to |ca|
        invariant Searching() && T() == t && SameProblem(t, d, T(), D()) && |dead| == |old(dead)| == |ca| == |learnt|
        invariant forall b :: 0 <= b < |dead| && dead[b] != old(dead)[b] ==>
                    dead[b] && learnt[b] && |ca[b]| > 2 && !Locked(T(), D(), b)
      {
        if !dead[cr] && learnt[cr] && |ca[cr]| > 2 && !(Value(assigns, ca[cr][0]) == LTrue && reason[ca[cr][0].v] == cr) {
          if * {
            ghost var e := D();
            RemoveClause(cr);
            SameTrans(t, d, t, e, T(), D());
          }
        }
      }
    }

    lemma DbSizes()
      requires Ready()
      ensures |ca| == |dead| == |learnt|
      ensures forall cr :: D().Live(cr) ==> |ca[cr]| >= 2 && ClauseOk(|assigns|, ca[cr]) && ca[cr][0].v < |reason|
    {
    }

    method Satisfied(c: Clause) returns (r: bool)
      ensures r <==> exists l :: l in c && T().Val(l) == LTrue
    {
      for i := 0 to |c|
        invariant forall k :: 0 <= k < i ==> T().Val(c[k]) != LTrue
      {
        if Value(assigns, c[i]) == LTrue {
          assert c[i] in c;
          return true;
        }
      }
      return false;
    }

    /** Takes the false literals out of a clause with two open watched literals. */
    method Trim(cr: nat)
      requires Ready() && qhead == |trail| && trailLim == [] && D().Live(cr) && |ca[cr]| >= 2
      requires T().Val(ca[cr][0]) == LUndef && T().Val(ca[cr][1]) == LUndef
      modifies this`ca, this`trimmed
      ensures Ready() && SameProblem(old(T()), old(D()), T(), D())
      ensures |ca| == |old(ca)| && forall b :: 0 <= b < |ca| && b != cr ==> ca[b] == old(ca)[b]
      ensures forall l :: l in ca[cr] <==> l in old(ca)[cr] && T().Val(l) != LFalse
    {
      hide Kernel, Learned, SameProblem, ClauseOk;
      DbSizes();
      ghost var b, t, d := ca[cr], T(), D();
      var c, k := ca[cr], 2;
      while k < |c|
        invariant D() == d && 2 <= k <= |c| && c[0] == b[0] && c[1] == b[1] && ClauseOk(|assigns|, c)
        invariant forall j :: 0 <= j < k ==> T().Val(c[j]) != LFalse
        invariant (forall l :: l in c ==> l in b) && forall l :: l in b && l !in c ==> T().Val(l) == LFalse
        decreases |c| - k
      {
        if Value(assigns, c[k]) == LFalse {
          LastInstead(|assigns|, c, k);
          c := c[k := c[|c| - 1]];
          c := c[..|c| - 1];
        } else {
          k := k + 1;
        }
      }
      ghost var gone := set l | l in b && l !in c;
      RootLiterals(t, d, gone);
      KernelTrail(t, d, qhead);
      TrimKernel(t, d, cr, c, gone);
      TrimMeaning(t, d, cr, c, gone);
      ca := ca[cr := c];
      trimmed := trimmed + gone;
    }

    /** Removes the satisfied clauses among the learnt ones or among the others, and trims the rest of them. */
    method RemoveSatisfied(learnts: bool)
      requires Searching() && qhead == |trail| && trailLim == []
      modifies this`ca, this`dead, this`dirty, this`reason, this`trimmed
      ensures Searching() && SameProblem(old(T()), old(D()), T(), D()) && |ca| == |old(ca)| && |dead| == |old(dead)|
      ensures forall cr :: 0 <= cr < |ca| && cr < |dead| && cr < |learnt| ==>
                if old(dead)[cr] || learnt[cr] != learnts then ca[cr] == old(ca)[cr] && dead[cr] == old(dead)[cr]
                else Simplified(assigns, old(ca)[cr], ca[cr], dead[cr])
    {
      hide Kernel, Learned, SameProblem, Assumed, Simplified;
      ghost var t, d := T(), D();
      SameRefl(t, d);
      DbSizes();
      for cr := 0 to |ca|
        invariant Searching() && SameProblem(t, d, T(), D()) && |ca| == |d.ca| == |dead| == |learnt| == |d.dead|
        invariant forall b :: 0 <= b < |ca| && (b >= cr || d.dead[b] || learnt[b] != learnts) ==> ca[b] == d.ca[b] && dead[b] == d.dead[b]
        invariant forall b :: 0 <= b < cr && !d.dead[b] && learnt[b] == learnts ==> Simplified(assigns, d.ca[b], ca[b], dead[b])
      {
        if !dead[cr] && learnt[cr] == learnts {
          ghost var u, e := T(), D();
          SimplifyClause(cr);
          SameTrans(t, d, u, e, T(), D());
        }
      }
    }

    method SimplifyClause(cr: nat)
      requires Searching() && qhead == |trail| && trailLim == [] && D().Live(cr)
      modifies this`ca, this`dead, this`dirty, this`reason, this`trimmed
      ensures Searching() && SameProblem(old(T()), old(D()), T(), D()) && |ca| == |old(ca)| && |dead| == |old(dead)|
      ensures forall b :: 0 <= b < |ca| && b < |dead| && b != cr ==> ca[b] == old(ca)[b] && dead[b] == old(dead)[b]
      ensures cr < |ca| && Simplified(assigns, old(ca)[cr], ca[cr], dead[cr])
    {
      hide Kernel, Learned, SameProblem, Assumed, Dispensable, Locked;
      var r := Satisfied(ca[cr]);
      if r {
        RootSatisfied(T(), D(), cr);
        RemoveClause(cr);
      } else {
        OpenWatches(T(), D(), cr);
        Trim(cr);
      }
      RootAssumed();
    }

    /** Simplifies the clauses by the values of level 0; false if there turns out to be no model. Whether enough has
        changed since the last time for it to be worth while is left open. */
    method Simplify() returns (r: bool)
      requires Searching() && trailLim == []
      modifies this`ca, this`dead, this`watches, this`dirty, this`assigns, this`reason, this`level, this`pos, this`trail,
               this`qhead, this`trimmed
      ensures SameProblem(old(T()), old(D()), T(), D()) && |assigns| == |old(assigns)|
      ensures r ==> Searching() && qhead == |trail| && Remaining(T(), Top()) <= Remaining(old(T()), old(Top()))
      ensures !r ==> FinalConflict() && Unmarked() && conflict == {} && trailLim == []
    {
      hide Kernel, Learned, SameProblem, Assumed, Remaining, FinalConflict, Simplified, Ready, AllFalse;
      ghost var t, d := T(), D();
      var confl := Settle();
      if confl >= 0 {
        RootConflictFinal(confl);
        return false;
      }
      ghost var u, e := T(), D();
      if * {
        RemoveSatisfied(true);
        ghost var v, f := T(), D();
        SameTrans(t, d, u, e, v, f);
        RemainingSame(u, v, Top());
        if removeSatisfied {
          RemoveSatisfied(false);
          SameTrans(t, d, v, f, T(), D());
          RemainingSame(v, T(), Top());
        }
      }
      return true;
    }

    lemma RootAssumed()
      requires Ready() && trailLim == []
      ensures Assumed(T(), assumptions)
    {
      AssumedStart(T(), assumptions);
    }

    /** A conflict in the middle of the search. */
    ghost predicate Disturbed(confl: int)
      reads this
    {
      && InConflict(confl) && Unmarked() && conflict == {} && |decision| == |polarity| == |assigns|
      && Assumed(T(), assumptions) && forall l :: l in assumptions ==> l.v < |assigns|
    }

    /** Propagates everything that is pending. */
    method Settle() returns (confl: int)
      requires Searching()
      modifies this`ca, this`watches, this`dirty, this`assigns, this`reason, this`level, this`pos, this`trail, this`qhead
      ensures SameProblem(old(T()), old(D()), T(), D())
      ensures |assigns| == |old(assigns)|
      ensures if confl < 0 then Searching() && qhead == |trail| else Disturbed(confl)
      ensures Remaining(T(), Top()) <= Remaining(old(T()), old(Top()))
    {
      hide Kernel, Learned, SameProblem, Assumed, Remaining, AllFalse, Grown;
      ghost var t := T();
      confl := Propagate();
      KernelTrail(T(), D(), if confl < 0 then qhead else T().Base());
      PropagateSteps(t, T(), assumptions);
    }

    lemma RootConflictFinal(confl: int)
      requires Disturbed(confl) && trailLim == []
      ensures FinalConflict()
    {
      NoModel(T(), D(), confl);
    }

    /** With nothing in conflict: opens levels for the assumptions and takes the next decision, unless an assumption is
        false or nothing is left to decide. */
    method NextDecision() returns (status: LB)
      requires Searching() && qhead == |trail|
      modifies this`assigns, this`reason, this`level, this`pos, this`trail, this`trailLim, this`seen, this`conflict
      ensures SameProblem(old(T()), old(D()), T(), D())
      ensures |assigns| == |old(assigns)|
      ensures status == LUndef ==> Searching() && Remaining(T(), Top()) < Remaining(old(T()), old(Top()))
      ensures status == LFalse ==> FinalConflict() && Resting() && Unmarked() && conflict != {}
      ensures status == LTrue ==> Complete() && Searching()
    {
      hide Kernel, Learned, SameProblem, Assumed, Remaining, FinalConflict;
      ghost var t, d := T(), D();
      var refuted, found, next := OpenAssumptions();
      if refuted {
        return LFalse;
      }
      if !found {
        found, next := PickBranchLit();
        if !found {
          AllAssumptions(T(), assumptions);
          return LTrue;
        }
      }
      ghost var w, h := T(), D();
      Decide(next);
      SameTrans(t, d, w, h, T(), D());
      return LUndef;
    }

    /** Goes back to level 0. */
    method Restart()
      requires Resting()
      modifies this`assigns, this`trail, this`trailLim, this`qhead
      ensures Resting() && trailLim == [] && SameProblem(old(T()), old(D()), T(), D()) && |assigns| == |old(assigns)|
    {
      hide Kernel, Learned, SameProblem, Assumed, CutTo;
      SameRefl(T(), D());
      if |trailLim| > 0 {
        RestartSteps(T(), D(), qhead, assumptions);
        CancelUntil(0);
      }
    }

    // ---------- problem clauses ----------

    /** A solver for `n` variables without clauses. */
    constructor (n: nat)
      ensures Valid() && ok && Searching() && |assigns| == n && assumptions == [] && forall v :: 0 <= v < n ==> decision[v]
      ensures freeVars == [] && releasedVars == [] && forall m :: Problem(T(), D(), m)
    {
      ca, dead, learnt := [], [], [];
      watches, dirty := seq(2 * n, _ => []), seq(2 * n, _ => false);
      assigns, reason, level, pos := seq(n, _ => LUndef), seq(n, _ => -1), seq(n, _ => 0), seq(n, _ => 0);
      trail, trailLim, qhead, ok := [], [], 0, true;
      seen, toClear := seq(n, _ => UNDEF), [];
      decision, polarity := seq(n, _ => true), seq(n, _ => true);
      assumptions, conflict, trimmed, removeSatisfied, releasedVars, freeVars := [], {}, {}, true, [], [];
    }

    /** Between calls the solver is on decision level 0, unless the problem has turned out to have no model. */
    ghost predicate Valid()
      reads this`assigns, this`reason, this`level, this`pos, this`trail, this`trailLim, this`qhead, this`ok,
            this`ca, this`dead, this`learnt, this`watches, this`dirty, this`trimmed
    {
      ok ==> Ready() && trailLim == []
    }

    /** Fixes a literal on level 0. */
    method AddUnit(l: Lit)
      requires ok && Valid() && l.v < |assigns| && T().Val(l) == LUndef
      modifies this`ca, this`watches, this`dirty, this`assigns, this`reason, this`level, this`pos, this`trail, this`qhead,
               this`ok
      ensures Valid() && |assigns| == |old(assigns)|
      ensures ok ==> forall m :: Problem(T(), D(), m) <==> Problem(old(T()), old(D()), m) && SatClause(m, [l])
      ensures !ok ==> forall m :: Problem(old(T()), old(D()), m) ==> !SatClause(m, [l])
    {
      hide Kernel, Learned, Problem, SatClause, SameProblem, AllFalse, Grown;
      ghost var t, d := T(), D();
      UnitSteps(t, d, qhead, l);
      UncheckedEnqueue(l, -1);
      ghost var u := T();
      var confl := Propagate();
      GrownLength(u, T());
      ok := confl < 0;
      SameOnwards(u, d, T(), D());
      if !ok { NoModel(T(), D(), confl); }
    }

    /** Adds a clause, simplified by what level 0 decides. */
    method AddClause(ps: Clause) returns (r: bool)
      requires Valid() && forall l :: l in ps ==> l.v < |assigns|
      modifies this`ca, this`dead, this`learnt, this`watches, this`dirty, this`assigns, this`reason, this`level, this`pos,
               this`trail, this`qhead, this`ok
      ensures Valid() && r == ok && (!old(ok) ==> !ok) && |assigns| == |old(assigns)|
      ensures r ==> forall m :: Problem(T(), D(), m) <==> Problem(old(T()), old(D()), m) && SatClause(m, ps)
      ensures old(ok) && !r ==> forall m :: Problem(old(T()), old(D()), m) ==> !SatClause(m, ps)
    {
      hide Kernel, Learned, Problem, SatClause, SameProblem, Sorted, Ascending, AllFalse, Grown;
      if !ok {
        return false;
      }
      ghost var t, d := T(), D();
      var sorted := Sort(ps);
      var satisfied, kept := Filter(assigns, sorted);
      if satisfied {
        AlreadyTrue(t, d, qhead, ps, sorted);
        return true;
      }
      KeptMeaning(t, d, qhead, ps, sorted, kept);
      if kept == [] {
        ok := false;
        EmptyFalse();
      } else if |kept| == 1 {
        assert kept == [kept[0]] && kept[0] in kept;
        AddUnit(kept[0]);
      } else {
        ClauseSteps(t, d, qhead, kept);
        var cr := AttachClause(kept, false);
      }
      return ok;
    }

    /** Removes a clause that is not needed any more; its watchers are left behind. */
    method RemoveClause(cr: nat)
      requires Ready() && qhead == |trail| && Dispensable(T(), D(), cr)
      requires Locked(T(), D(), cr) ==> level[ca[cr][0].v] == 0
      modifies this`dead, this`dirty, this`reason
      ensures Ready() && SameProblem(old(T()), old(D()), T(), D()) && dead == old(dead)[cr := true]
      ensures T() == Unlocked(old(T()), old(D()), cr)
    {
      hide Kernel, Learned, SameProblem, Dispensable, ToInt, Neg;
      LiveHere(T(), D(), cr);
      RemoveKernel(T(), D(), cr);
      KernelSizes(T(), D(), qhead);
      RemoveMeaning(T(), D(), cr);
      var c := ca[cr];
      ghost var t, d := T(), D();
      dirty := dirty[ToInt(Neg(c[0])) := true];
      dirty := dirty[ToInt(Neg(c[1])) := true];
      if Value(assigns, c[0]) == LTrue && reason[c[0].v] == cr {
        reason := reason[c[0].v := -1];
      }
      dead := dead[cr := true];
      assert T() == Unlocked(t, d, cr) && D() == Removed(d, cr);
    }

    /** The solver between calls. */
    ghost predicate Idle()
      reads this
    {
      Valid() && Unmarked() && |decision| == |polarity| == |assigns|
    }

    // ---------- variables ----------

    /** Makes `l` true for good and remembers its variable for later use, unless it has a value already. */
    method ReleaseVar(l: Lit)
      requires Idle() && ok && l.v < |assigns|
      modifies this`ca, this`dead, this`learnt, this`watches, this`dirty, this`assigns, this`reason, this`level, this`pos,
               this`trail, this`qhead, this`ok, this`releasedVars
      ensures Idle() && |assigns| == |old(assigns)|
      ensures if old(T()).Val(l) == LUndef then releasedVars == old(releasedVars) + [l.v] else releasedVars == old(releasedVars)
      ensures old(T()).Val(l) != LUndef ==> T() == old(T()) && D() == old(D()) && ok
      ensures old(T()).Val(l) == LUndef && ok ==> forall m :: Problem(T(), D(), m) <==> Problem(old(T()), old(D()), m) && SatClause(m, [l])
      ensures !ok ==> forall m :: Problem(old(T()), old(D()), m) ==> !SatClause(m, [l])
    {
      hide Valid, Problem, SatClause;
      if Value(assigns, l) == LUndef {
        var r := AddClause([l]);
        releasedVars := releasedVars + [l.v];
      }
    }

    ghost predicate Recyclable()
      reads this
    {
      && Idle() && ok && qhead == |trail| && (forall v :: v in releasedVars ==> v < |assigns|)
      && Unmentioned(D(), Vars(releasedVars)) && NoBlocker(D(), Vars(releasedVars))
    }

    /** Takes the released variables off the trail, at the end of a simplification. */
    method RecycleReleased()
      requires Recyclable()
      modifies this`trail, this`qhead, this`assigns, this`reason, this`pos, this`seen, this`releasedVars, this`freeVars, this`trimmed
      ensures Idle() && ok && T() == Recycled(old(T()), Vars(old(releasedVars)))
      ensures forall m :: Problem(T(), D(), m) <==> Problem(old(T()), old(D()), Released(old(T()), Vars(old(releasedVars)), m))
      ensures freeVars == old(freeVars) + old(releasedVars) && releasedVars == []
    {
      hide Kernel, Learned, Problem, Unmentioned, NoBlocker, Others, Recycled;
      ghost var t, d, vs := T(), D(), Vars(releasedVars);
      KernelTrail(t, d, qhead);
      RecycleSteps(t, d, D().(trimmed := Untrimmed(trimmed, vs)), vs);
      TakeOff();
      trimmed := Untrimmed(trimmed, vs);
    }

    method TakeOff()
      requires TrailOk(T()) && trailLim == [] && Unmarked() && forall v :: v in releasedVars ==> v < |assigns|
      modifies this`trail, this`qhead, this`assigns, this`reason, this`pos, this`seen, this`releasedVars, this`freeVars
      ensures T() == Recycled(old(T()), Vars(old(releasedVars))) && Unmarked() && |assigns| == |old(assigns)|
      ensures qhead == |trail| == |Others(old(trail), Vars(old(releasedVars)))|
      ensures freeVars == old(freeVars) + old(releasedVars) && releasedVars == []
    {
      hide Listed, Limits, Levels, Others;
      ghost var t, vs := T(), Vars(releasedVars);
      TrailRange(t);
      Mark(1);
      DropMarked(vs);
      qhead := |trail|;
      Mark(UNDEF);
      Forget();
      pos := Recycled(t, vs).pos;
      freeVars := freeVars + releasedVars;
      releasedVars := [];
    }

    /** Keeps the literals of the trail whose variables are not marked. */
    method DropMarked(ghost vs: set<nat>)
      requires forall k :: 0 <= k < |trail| ==> trail[k].v < |seen| && (seen[trail[k].v] != 0 <==> trail[k].v in vs)
      modifies this`trail
      ensures trail == Others(old(trail), vs)
    {
      hide Others;
      ghost var lits := trail;
      var i, j := 0, 0;
      assert trail[..0] == [];
      NoOthers(vs);
      while i < |trail|
        invariant 0 <= j <= i <= |trail| == |lits| && trail[..j] == Others(lits[..i], vs) && trail[i..] == lits[i..]
      {
        assert trail[i] == trail[i..][0] == lits[i];
        OneOther(lits, vs, i);
        ghost var before := trail;
        if seen[trail[i].v] == 0 {
          trail := trail[j := trail[i]];
          assert trail[..j + 1] == before[..j] + [trail[j]];
          j := j + 1;
        }
        assert trail[i + 1..] == before[i..][1..] == lits[i..][1..] == lits[i + 1..];
        i := i + 1;
      }
      assert lits[..i] == lits;
      trail := trail[..j];
    }

    /** Marks the released variables. */
    method Mark(mark: nat)
      requires forall v :: v in releasedVars ==> v < |seen|
      modifies this`seen
      ensures |seen| == |old(seen)| && forall v :: 0 <= v < |seen| ==> seen[v] == if v in releasedVars then mark else old(seen)[v]
    {
      for i := 0 to |releasedVars|
        invariant |seen| == |old(seen)|
        invariant forall v :: 0 <= v < |seen| ==> seen[v] == if v in releasedVars[..i] then mark else old(seen)[v]
      {
        assert releasedVars[i] in releasedVars && releasedVars[..i + 1] == releasedVars[..i] + [releasedVars[i]];
        seen := seen[releasedVars[i] := mark];
      }
      assert releasedVars[..|releasedVars|] == releasedVars;
    }

    /** Takes the values of the released variables back. */
    method Forget()
      requires (forall v :: v in releasedVars ==> v < |assigns|) && |reason| == |assigns|
      modifies this`assigns, this`reason
      ensures |assigns| == |old(assigns)| == |reason|
      ensures forall v :: 0 <= v < |assigns| ==> assigns[v] == if v in releasedVars then LUndef else old(assigns)[v]
      ensures forall v :: 0 <= v < |assigns| ==> reason[v] == if v in releasedVars then -1 else old(reason)[v]
    {
      for i := 0 to |releasedVars|
        invariant |assigns| == |old(assigns)| == |reason|
        invariant forall v :: 0 <= v < |assigns| ==> assigns[v] == if v in releasedVars[..i] then LUndef else old(assigns)[v]
        invariant forall v :: 0 <= v < |assigns| ==> reason[v] == if v in releasedVars[..i] then -1 else old(reason)[v]
      {
        var v := releasedVars[i];
        assert v in releasedVars && releasedVars[..i + 1] == releasedVars[..i] + [v];
        assigns, reason := assigns[v := LUndef], reason[v := -1];
      }
      assert releasedVars[..|releasedVars|] == releasedVars;
    }

    /** A variable that nothing has been said about: one that has been released, or a new one. */
    method NewVar(choose: bool) returns (v: nat)
      requires Idle() && ok && forall u :: u in freeVars ==> u < |assigns| && assigns[u] == LUndef && Unmentioned(D(), {u})
      modifies this`watches, this`dirty, this`assigns, this`reason, this`level, this`pos, this`seen, this`decision, this`polarity,
               this`freeVars
      ensures Idle() && v < |assigns| && assigns[v] == LUndef && Unmentioned(D(), {v}) && decision[v] == choose
      ensures if old(freeVars) == [] then v == |old(assigns)| && |assigns| == |old(assigns)| + 1 && freeVars == []
              else old(freeVars) == freeVars + [v] && assigns == old(assigns)
      ensures forall m :: Problem(T(), D(), m) <==> Problem(old(T()), old(D()), m)
      ensures forall u :: 0 <= u < |old(assigns)| && u != v ==> assigns[u] == old(assigns)[u] && decision[u] == old(decision)[u]
    {
      hide Kernel, Learned, Problem, Unmentioned;
      if freeVars == [] {
        v := |assigns|;
        Widen(choose);
      } else {
        v := freeVars[|freeVars| - 1];
        assert v in freeVars;
        freeVars := freeVars[..|freeVars| - 1];
        Renew(v, choose);
      }
    }

    method Widen(choose: bool)
      requires Idle() && ok
      modifies this`watches, this`dirty, this`assigns, this`reason, this`level, this`pos, this`seen, this`decision, this`polarity
      ensures Idle() && assigns == old(assigns) + [LUndef] && decision == old(decision) + [choose] && Unmentioned(D(), {|old(assigns)|})
      ensures forall m :: Problem(T(), D(), m) <==> Problem(old(T()), old(D()), m)
    {
      hide Kernel, Learned, Problem, Unmentioned;
      ghost var t, d := T(), D();
      WiderKernel(t, d, qhead);
      SameClauses(t, d, Wider(t), WiderDb(d));
      NotYetMentioned(t, d, qhead);
      watches, dirty := watches + [[], []], dirty + [false, false];
      assigns, reason, level, pos := assigns + [LUndef], reason + [-1], level + [0], pos + [0];
      seen, polarity, decision := seen + [UNDEF], polarity + [true], decision + [choose];
      assert T() == Wider(t) && D() == WiderDb(d);
    }

    method Renew(v: nat, choose: bool)
      requires Idle() && ok && v < |assigns| && assigns[v] == LUndef && Unmentioned(D(), {v})
      modifies this`watches, this`reason, this`level, this`seen, this`decision, this`polarity
      ensures Idle() && decision == old(decision)[v := choose] && Unmentioned(D(), {v})
      ensures forall m :: Problem(T(), D(), m) <==> Problem(old(T()), old(D()), m)
    {
      hide Kernel, Learned, Problem, Unmentioned;
      ghost var t, d := T(), D();
      EmptiedKernel(t, d, qhead, v);
      FreshKernel(t, Emptied(d, v), qhead, v);
      SameClauses(t, d, Fresh(t, v), Emptied(d, v));
      watches := watches[2 * v := []];
      watches := watches[2 * v + 1 := []];
      reason, level, seen := reason[v := -1], level[v := 0], seen[v := UNDEF];
      polarity, decision := polarity[v := true], decision[v := choose];
      assert T() == Fresh(t, v) && D() == Emptied(d, v);
    }

    /** Searches again and again, with limits that follow the Luby sequence: some limit is never reached. */
    method SearchOn() returns (status: LB)
      requires Searching() && trailLim == []
      modifies this`ca, this`dead, this`learnt, this`watches, this`dirty, this`assigns, this`reason, this`level, this`pos,
               this`trail, this`trailLim, this`qhead, this`seen, this`toClear, this`conflict, this`trimmed
      ensures status != LUndef && Answered(status, 0)
      ensures |assigns| == |old(assigns)| && SameProblem(old(T()), old(D()), T(), D())
    {
      hide Resting, SameProblem, Remaining, FinalConflict, Complete, Luby, Pow, Problem, Bound;
      ghost var t, d := T(), D();
      SameRefl(t, d);
      ghost var bound := Bound(|assigns|, Top());
      LubyPeak(bound);
      ghost var last := Pow(2, bound + 1) - 2;
      var restarts := 0;
      status := LUndef;
      while status == LUndef
        invariant SameProblem(t, d, T(), D()) && |assigns| == t.Size()
        invariant status == LUndef ==> Searching() && trailLim == [] && restarts <= last
        invariant status != LUndef ==> Answered(status, 0)
        decreases last - restarts
      {
        ghost var u, e := T(), D();
        RemainingBound(u, Top());
        var base := LubyExponent(restarts);
        PowGrows(base);
        status := Search(100 * Pow(2, base));
        SameTrans(t, d, u, e, T(), D());
        restarts := restarts + 1;
      }
    }

    /** Solves under assumptions, starting over from time to time. */
    method Solve(hyps: seq<Lit>) returns (status: LB, model: seq<LB>)
      requires Idle() && forall l :: l in hyps ==> l.v < |assigns|
      modifies this`ca, this`dead, this`learnt, this`watches, this`dirty, this`assigns, this`reason, this`level, this`pos,
               this`trail, this`trailLim, this`qhead, this`seen, this`toClear, this`conflict, this`trimmed, this`assumptions, this`ok
      ensures Idle() && |assigns| == |old(assigns)| && (!old(ok) ==> !ok && status == LFalse)
      ensures ok ==> SameProblem(old(T()), old(D()), T(), D())
      ensures status != LUndef && (!ok ==> status == LFalse && conflict == {})
      ensures status == LTrue ==> ModelFor(old(T()), old(D()), decision, model, hyps)
      ensures status == LFalse ==> if old(ok) then CoreFor(old(T()), old(D()), conflict, hyps) else conflict == {}
    {
      hide Kernel, Learned, SameProblem, Assumed, FinalConflict, Complete, ModelFor, CoreFor, Ready, Unmarked;
      model, conflict := [], {};
      if !ok {
        return LFalse, model;
      }
      ghost var t, d := T(), D();
      Assume(hyps);
      status := SearchOn();
      ghost var v, f := T(), D();
      if status == LTrue {
        model := assigns;
        ModelFound(t, d);
      } else {
        CoreFound(t, d);
        if conflict == {} {
          ok := false;
        }
      }
      Conclude();
      if ok { SameTrans(t, d, v, f, T(), D()); }
    }

    method Assume(hyps: seq<Lit>)
      requires Idle() && ok && conflict == {} && forall l :: l in hyps ==> l.v < |assigns|
      modifies this`assumptions
      ensures Searching() && trailLim == [] && assumptions == hyps
    {
      hide Kernel, Learned, Assumed;
      assumptions := hyps;
      KernelTrail(T(), D(), qhead);
      AssumedStart(T(), hyps);
    }

    /** Back to level 0 after the search. */
    method Conclude()
      requires if ok then Resting() else Unmarked() && |decision| == |polarity| == |assigns| && trailLim == []
      modifies this`assigns, this`trail, this`trailLim, this`qhead
      ensures Idle() && |assigns| == |old(assigns)| && (ok ==> SameProblem(old(T()), old(D()), T(), D()))
    {
      hide Kernel, Learned, Assumed, SameProblem;
      SameRefl(T(), D());
      if |trailLim| > 0 {
        Restart();
      }
    }

    lemma ModelFound(t: Trail, d: Db)
      requires Complete() && SameProblem(t, d, T(), D())
      ensures ModelFor(t, d, decision, assigns, assumptions)
    {
      hide Kernel, Problem;
      if forall v :: 0 <= v < |decision| ==> decision[v] {
        ClauseVars(T(), D(), |trail|);
        forall m | Completes(assigns, m) ensures Problem(t, d, m) && forall l :: l in assumptions ==> Makes(m, l) {
          TrailMade(T(), D(), |trail|, m);
          CompleteIsModel(m);
          SameModels(t, d, T(), D(), m);
        }
      }
    }

    lemma CoreFound(t: Trail, d: Db)
      requires FinalConflict() && SameProblem(t, d, T(), D()) && (conflict != {} ==> Resting())
      ensures CoreFor(t, d, conflict, assumptions)
    {
      hide FinalCore, Kernel, Learned, Problem, ReasonsOk, Listed, Limits, Levels;
      if conflict != {} {
        KernelReasons(T(), D(), qhead);
        assert EndsAt(t, d, T(), D(), conflict, assumptions);
      }
    }

    /** A finished search has found a model, provided the solver was free to decide the variables of all clauses. */
    lemma CompleteIsModel(m: Model)
      requires Complete() && Extends(T(), m)
      requires forall cr, l :: D().Live(cr) && l in ca[cr] ==> l.v < |assigns| && decision[l.v]
      ensures Problem(T(), D(), m) && forall l :: l in assumptions ==> Makes(m, l)
    {
      TrailIsModel(T(), D(), m);
      forall l | l in assumptions ensures Makes(m, l) {
        OnTrail(T(), l);
        assert Makes(m, trail[pos[l.v]]);
      }
    }
  }

  lemma TrailRange(t: Trail)
    requires TrailOk(t)
    ensures forall k :: 0 <= k < |t.lits| ==> t.lits[k].v < t.Size()
  {
  }

  lemma SameClauses(t: Trail, d: Db, u: Trail, e: Db)
    requires u.lits == t.lits && u.lim == t.lim && e.ca == d.ca && e.dead == d.dead && e.learnt == d.learnt
    ensures forall m :: Problem(u, e, m) <==> Problem(t, d, m)
    ensures Learned(t, d) ==> Learned(u, e)
    ensures forall vs :: Unmentioned(d, vs) ==> Unmentioned(e, vs)
  {
    hide SatClause;
    forall cr ensures e.Live(cr) <==> d.Live(cr) {}
  }

  lemma NotYetMentioned(t: Trail, d: Db, place: nat)
    requires Kernel(t, d, place, {}, 0)
    ensures Unmentioned(WiderDb(d), {t.Size()})
  {
    var e := WiderDb(d);
    forall cr, l | e.Live(cr) && l in e.ca[cr] ensures l.v !in {t.Size()} {
      assert d.Live(cr);
      var k :| 0 <= k < |d.ca[cr]| && d.ca[cr][k] == l;
    }
  }

  ghost function Vars(vs: seq<nat>): set<nat> { set v: nat | v in vs }

  lemma NoOthers(vs: set<nat>)
    ensures Others([], vs) == []
  {
  }

  lemma OneOther(lits: seq<Lit>, vs: set<nat>, i: nat)
    requires i < |lits|
    ensures Others(lits[..i + 1], vs) == if lits[i].v in vs then Others(lits[..i], vs) else Others(lits[..i], vs) + [lits[i]]
  {
    assert lits[..i + 1][..i] == lits[..i];
  }

  lemma RecycleSteps(t: Trail, d: Db, e: Db, vs: set<nat>)
    requires Kernel(t, d, |t.lits|, {}, 0) && Learned(t, d) && t.lim == [] && Unmentioned(d, vs) && NoBlocker(d, vs)
    requires e == d.(trimmed := Untrimmed(d.trimmed, vs))
    ensures Sizes(t) && Kernel(Recycled(t, vs), e, |Others(t.lits, vs)|, {}, 0) && Learned(Recycled(t, vs), e)
    ensures forall m :: Problem(Recycled(t, vs), e, m) <==> Problem(t, d, Released(t, vs, m))
  {
    hide Listed, Limits, Levels, DbOk, ReasonsOk, WatchOk, Unmentioned, NoBlocker, Learned, Problem;
    RecycleKernel(t, d, vs);
    RecycleLearned(t, d, e, vs);
    forall m ensures Problem(Recycled(t, vs), e, m) <==> Problem(t, d, Released(t, vs, m)) { RecycleMeaning(t, d, e, vs, m); }
  }

  /** What a conflict leads to: the clause learnt from it is added, and its first literal is true after going back. */
  ghost predicate Backjumped(t: Trail, d: Db, confl: nat, c: Clause, back: nat, u: Trail, e: Db) {
    && LearntFrom(t, d, confl, c) && Asserting(t, c, back) && TrailOk(t) && back < |t.lim| && c[0].v < t.Size()
    && u == Enqueued(CutTo(t, back), c[0], if |c| == 1 then -1 else |d.ca|)
    && if |c| == 1 then e.ca == d.ca && e.learnt == d.learnt else e.ca == d.ca + [c] && e.learnt == d.learnt + [true]
  }

  /** The model has the values that are known. */
  ghost predicate Completes(values: seq<LB>, m: Model) {
    forall v :: 0 <= v < |values| && values[v] != LUndef ==> (v in m <==> values[v] == LTrue)
  }

  /** A model of the problem under the assumptions: complete on the decision variables, and if these are all variables
      then every way to read it satisfies everything. */
  ghost predicate ModelFor(t: Trail, d: Db, decision: seq<bool>, model: seq<LB>, hyps: seq<Lit>) {
    && |model| == |decision| && (forall v :: 0 <= v < |model| && decision[v] ==> model[v] != LUndef)
    && ((forall v :: 0 <= v < |decision| ==> decision[v]) ==>
          forall m :: Completes(model, m) ==> Problem(t, d, m) && forall l :: l in hyps ==> Makes(m, l))
  }

  /** Negated assumptions, one of which holds in every model of the problem. They are those that the first assumption to be
      false depends on, in the state in which the search has ended. */
  ghost predicate CoreFor(t: Trail, d: Db, core: set<Lit>, hyps: seq<Lit>) {
    && (forall l :: l in core ==> Neg(l) in hyps)
    && (forall m :: Problem(t, d, m) ==> exists l :: l in core && Makes(m, l))
    && (core != {} ==> exists u, e :: EndsAt(t, d, u, e, core, hyps))
  }

  /** The search has ended with trail `u` and clauses `e`: the assumptions before level `|u.lim|` are true, and the next one
      is false because of the decisions in `core`. */
  ghost predicate EndsAt(t: Trail, d: Db, u: Trail, e: Db, core: set<Lit>, hyps: seq<Lit>) {
    && SameProblem(t, d, u, e) && Learned(u, e) && Assumed(u, hyps) && ReasonsOk(u, e) && |u.lim| < |hyps| && u.Val(hyps[|u.lim|]) == LFalse
    && core == FinalCore(u, e, Neg(hyps[|u.lim|]))
  }

  /** What level 0 leaves of clause `b`: nothing if it is satisfied, otherwise its open literals. */
  ghost predicate Simplified(assigns: seq<LB>, b: Clause, c: Clause, gone: bool) {
    && (gone <==> exists l :: l in b && Value(assigns, l) == LTrue)
    && (!gone ==> forall l :: l in c <==> l in b && Value(assigns, l) == LUndef)
  }

  /** A satisfied clause may go, even if it is the reason for its first literal. */
  lemma RootSatisfied(t: Trail, d: Db, cr: nat)
    requires Kernel(t, d, |t.lits|, {}, 0) && t.lim == [] && d.Live(cr) && exists l :: l in d.ca[cr] && t.Val(l) == LTrue
    ensures Dispensable(t, d, cr) && |d.ca[cr]| >= 2 && d.ca[cr][0].v < |t.level| && (Locked(t, d, cr) ==> t.level[d.ca[cr][0].v] == 0)
  {
    var l :| l in d.ca[cr] && t.Val(l) == LTrue;
    assert t.lits[t.pos[l.v]] == l;
    if Locked(t, d, cr) {
      var v := d.ca[cr][0].v;
      assert LevelAt(t, t.pos[v], t.level[t.lits[t.pos[v]].v]);
    }
  }

  /** After complete propagation a clause that is not satisfied has two open watched literals. */
  lemma OpenWatches(t: Trail, d: Db, cr: nat)
    requires Kernel(t, d, |t.lits|, {}, 0) && d.Live(cr) && !exists l :: l in d.ca[cr] && t.Val(l) == LTrue
    ensures |d.ca[cr]| >= 2 && t.Val(d.ca[cr][0]) == LUndef && t.Val(d.ca[cr][1]) == LUndef
  {
    hide Kernel;
    Propagated(t, d, cr);
  }

  lemma RootLiterals(t: Trail, d: Db, gone: set<Lit>)
    requires Kernel(t, d, |t.lits|, {}, 0) && t.lim == [] && forall l :: l in gone ==> t.Val(l) == LFalse
    ensures TrimmedFalse(t, gone)
  {
  }

  lemma LastInstead(n: nat, c: Clause, k: nat)
    requires ClauseOk(n, c) && 2 <= k < |c|
    ensures var e := c[k := c[|c| - 1]][..|c| - 1];
            && ClauseOk(n, e) && |e| == |c| - 1 && (forall j :: 0 <= j < k ==> e[j] == c[j])
            && forall l :: l in e <==> l in c && l != c[k]
  {
    var e := c[k := c[|c| - 1]][..|c| - 1];
    forall l | l in c && l != c[k] ensures l in e {
      var j :| 0 <= j < |c| && c[j] == l;
      assert e[if j == |c| - 1 then k else j] == l;
    }
  }

  lemma SameModels(t: Trail, d: Db, u: Trail, e: Db, m: Model)
    requires SameProblem(t, d, u, e)
    ensures Problem(t, d, m) <==> Problem(u, e, m)
  {
  }

  lemma ClauseVars(t: Trail, d: Db, place: nat)
    requires Kernel(t, d, place, {}, 0)
    ensures forall cr, l :: d.Live(cr) && l in d.ca[cr] ==> l.v < t.Size()
  {
    forall cr, l | d.Live(cr) && l in d.ca[cr] ensures l.v < t.Size() {
      var k :| 0 <= k < |d.ca[cr]| && d.ca[cr][k] == l;
    }
  }

  lemma TrailMade(t: Trail, d: Db, place: nat, m: Model)
    requires Kernel(t, d, place, {}, 0) && Completes(t.assigns, m)
    ensures Extends(t, m)
  {
    forall k | 0 <= k < |t.lits| ensures Makes(m, t.lits[k]) {
      assert t.Val(t.lits[k]) == LTrue;
    }
  }

  /** The watchers whose clauses have not been removed. */
  function LiveWatchers(ws: seq<Watcher>, dead: seq<bool>): seq<Watcher> {
    if ws == [] then []
    else
      var w := ws[|ws| - 1];
      LiveWatchers(ws[..|ws| - 1], dead) + (if w.cref < |dead| && dead[w.cref] then [] else [w])
  }

  lemma FilterNext(ws: seq<Watcher>, i: nat, dead: seq<bool>)
    requires i < |ws|
    ensures LiveWatchers(ws[..i + 1], dead) == LiveWatchers(ws[..i], dead) + (if ws[i].cref < |dead| && dead[ws[i].cref] then [] else [ws[i]])
  {
    assert ws[..i + 1][..i] == ws[..i];
  }

  lemma {:induction false} FilterMember(ws: seq<Watcher>, dead: seq<bool>, w: Watcher)
    ensures w in LiveWatchers(ws, dead) <==> w in ws && !(w.cref < |dead| && dead[w.cref])
  {
    if ws != [] { FilterMember(ws[..|ws| - 1], dead, w); }
  }

  lemma {:induction false} FilterDistinct(ws: seq<Watcher>, dead: seq<bool>)
    requires Distinct(ws)
    ensures Distinct(LiveWatchers(ws, dead))
  {
    if ws != [] {
      var n := |ws| - 1;
      FilterDistinct(ws[..n], dead);
      var vs := LiveWatchers(ws[..n], dead);
      forall j | 0 <= j < |vs| ensures vs[j].cref != ws[n].cref { FilterMember(ws[..n], dead, vs[j]); }
    }
  }

  lemma FilterHas(ws: seq<Watcher>, dead: seq<bool>, b: nat)
    requires Has(ws, b) && b < |dead| && !dead[b]
    ensures Has(LiveWatchers(ws, dead), b)
  {
    var k :| 0 <= k < |ws| && ws[k].cref == b;
    FilterMember(ws, dead, ws[k]);
    var j :| 0 <= j < |LiveWatchers(ws, dead)| && LiveWatchers(ws, dead)[j] == ws[k];
  }

  lemma EntryExists(t: Trail, d: Db, place: nat, q: nat, i: nat)
    requires Kernel(t, d, place, {}, 0) && q < |d.watches| && i < |d.watches[q]|
    ensures d.watches[q][i].cref < |d.dead| && q < |d.dirty| && (d.dead[d.watches[q][i].cref] ==> d.dirty[q])
  {
    assert EntryOk(d, q, d.watches[q][i]);
  }

  lemma CleanKeeps(t: Trail, d: Db, place: nat, q: nat)
    requires Kernel(t, d, place, {}, 0) && q < |d.watches| && q < |d.dirty|
    ensures Kernel(t, d.(watches := d.watches[q := LiveWatchers(d.watches[q], d.dead)], dirty := d.dirty[q := false]), place, {}, 0)
  {
    hide TrailOk, ReasonsOk, WatchOk, LiveWatchers, Has, Distinct, Watched;
    var e := d.(watches := d.watches[q := LiveWatchers(d.watches[q], d.dead)], dirty := d.dirty[q := false]);
    FilterDistinct(d.watches[q], d.dead);
    forall p, k | 0 <= p < |e.watches| && 0 <= k < |e.watches[p]| ensures EntryOk(e, p, e.watches[p][k]) {
      var w := e.watches[p][k];
      if p == q {
        FilterMember(d.watches[q], d.dead, w);
        var j :| 0 <= j < |d.watches[q]| && d.watches[q][j] == w;
        assert EntryOk(d, q, d.watches[q][j]);
      } else {
        assert EntryOk(d, p, d.watches[p][k]);
      }
    }
    forall b, p | e.Live(b) && 0 <= p < |e.watches| && Watched(e.ca[b], p) ensures Has(e.watches[p], b) {
      assert Has(d.watches[p], b);
      if p == q { FilterHas(d.watches[q], d.dead, b); }
    }
    ListsOnly(t, d, e, place, {}, 0);
  }

  lemma KernelSizes(t: Trail, d: Db, place: nat)
    requires Kernel(t, d, place, {}, 0)
    ensures |d.watches| == |d.dirty| == 2 * t.Size()
  {
  }

  lemma EntryLive(t: Trail, d: Db, place: nat, pending: set<nat>, q: nat, j: nat)
    requires Kernel(t, d, place, pending, q) && q < |d.watches| && j < |d.watches[q]| && q < |d.dirty| && !d.dirty[q]
    ensures d.Live(d.watches[q][j].cref)
  {
    assert EntryOk(d, q, d.watches[q][j]);
  }

  lemma KernelBound(t: Trail, d: Db, place: nat)
    requires Kernel(t, d, place, {}, 0)
    ensures |t.lits| <= t.Size()
  {
    TrailBound(t);
  }

  lemma GrownLength(t: Trail, u: Trail)
    requires Grown(t, u)
    ensures |t.lits| <= |u.lits| && u.Base() == t.Base() && u.Size() == t.Size() && u.lim == t.lim
  {
  }

  lemma ConflictHere(t: Trail, d: Db, place: nat, pending: set<nat>, q: nat, p: Lit)
    requires Kernel(t, d, place, pending, q) && Current(t, p, q) && t.Base() <= place
    ensures Kernel(t, d, t.Base(), {}, 0)
  {
    hide Kernel, ToInt, Neg;
    CurrentOnly(t, p, q);
    Conflict(t, d, place, pending, q, 0);
  }

  /** Storing the compacted list back changes neither clauses nor models. */
  lemma FinishList(t: Trail, d: Db, e: Db, place: nat, q: nat)
    requires e.ca == d.ca && e.dead == d.dead && e.learnt == d.learnt
    ensures Learned(t, d) ==> Learned(t, e)
    ensures SameProblem(t, d, t, e)
    ensures Kernel(t, e, place, Crefs([]), q) ==> Kernel(t, e, place, {}, 0)
  {
    ReorderedRefl(d);
    ReorderedLists(d, d, e);
    ReorderedProblem(t, d, e);
    assert Crefs([]) == {};
    if Kernel(t, e, place, {}, q) { NothingPending(t, e, place, q, 0); }
  }

  lemma StartTest(t: Trail, d: Db, src: set<nat>, seen: seq<nat>, p: Lit)
    requires TrailOk(t) && ReasonsOk(t, d) && Memo(t, d, src, seen) && Active(t, d, p)
    ensures Testing(t, d, src, seen, [], p, 1)
  {
    HasReason(t, d, t.pos[p.v]);
  }

  lemma MemoRange(t: Trail, d: Db, src: set<nat>, seen: seq<nat>, v: nat)
    requires Memo(t, d, src, seen) && v < |t.pos|
    ensures |seen| == |t.pos| && seen[v] <= FAILED
  {
  }

  lemma LiteralMark(t: Trail, seen: seq<nat>, out: Clause, hi: nat, q: Lit)
    requires TrailOk(t) && Marks(t, seen, out, hi) && FalseBefore(t, q, hi)
    ensures q.v < |seen| == |t.pos| == |t.level| && (seen[q.v] == UNDEF || seen[q.v] == SOURCE) && t.Val(q) == LFalse
    ensures t.level[q.v] == 0 ==> t.pos[q.v] < t.Roots()
  {
    CurrentLevel(t, q);
  }

  lemma ConflictFalse(t: Trail, d: Db, cr: int)
    requires TrailOk(t) && d.Live(cr) && AllFalse(t, d.ca[cr])
    ensures forall j :: 0 <= j < |d.ca[cr]| ==> FalseBefore(t, d.ca[cr][j], |t.lits|)
  {
  }

  lemma NoneTrue(t: Trail, c: Clause, level: nat)
    requires AllFalse(t, c)
    ensures !TrueBy(t, c, level)
  {
    forall l | l in c ensures t.Val(l) != LTrue {
      var k :| 0 <= k < |c| && c[k] == l;
    }
  }

  /** A clause in conflict has a literal of the current level: the earlier levels were propagated completely. */
  lemma ConflictCurrent(t: Trail, d: Db, cr: int)
    requires Kernel(t, d, t.Base(), {}, 0) && d.Live(cr) && AllFalse(t, d.ca[cr])
    ensures |d.ca[cr]| > 0 && d.ca[cr][0].v < |t.pos| && t.pos[d.ca[cr][0].v] >= t.Base()
  {
    hide TrueBy, AllFalse, Listed, Levels, Limits;
    var q := d.ca[cr][0];
    assert t.Val(q) == LFalse by { FirstFalse(t, d.ca[cr]); }
    NoneTrue(t, d.ca[cr], t.level[q.v]);
  }

  lemma FirstFalse(t: Trail, c: Clause)
    requires AllFalse(t, c) && |c| > 0
    ensures t.Val(c[0]) == LFalse
  {
  }

  lemma MarksSize(t: Trail, seen: seq<nat>, out: Clause, hi: nat)
    requires Marks(t, seen, out, hi)
    ensures |seen| == |t.pos|
  {
  }

  lemma ConflictOpens(t: Trail, d: Db, seen: seq<nat>, cr: int)
    requires Kernel(t, d, t.Base(), {}, 0) && d.Live(cr) && AllFalse(t, d.ca[cr]) && |t.lim| > 0
    requires |seen| == |t.pos| && Absorbed(t, seen, d.ca[cr], 0)
    ensures |OpenPlaces(t, seen)| > 0 && |t.lits| > 0
  {
    hide DbOk, ReasonsOk, WatchOk;
    ConflictCurrent(t, d, cr);
    var q := d.ca[cr][0];
    CurrentLevel(t, q);
    assert t.pos[q.v] in OpenPlaces(t, seen);
  }

  lemma TrailVars(t: Trail, seen: seq<nat>, out: Clause, hi: nat)
    requires TrailOk(t) && Marks(t, seen, out, hi)
    ensures |seen| == |t.pos| == |t.reason| && forall j :: 0 <= j < |t.lits| ==> t.lits[j].v < |seen|
  {
  }

  lemma MarkedSource(t: Trail, seen: seq<nat>, out: Clause, hi: nat, v: nat)
    requires Marks(t, seen, out, hi) && v < |seen| && seen[v] != UNDEF
    ensures seen[v] == SOURCE
  {
  }

  lemma TrailPlace(t: Trail, k: nat)
    requires TrailOk(t) && k < |t.lits|
    ensures t.lits[k] in t.lits && t.lits[k].v < |t.pos| && t.pos[t.lits[k].v] == k
  {
  }

  lemma ReasonFalse(t: Trail, d: Db, k: nat)
    requires TrailOk(t) && ReasonsOk(t, d) && k < |t.lits| && t.reason[t.lits[k].v] >= 0
    ensures ReasonAt(t, d, k) && d.Live(t.reason[t.lits[k].v]) && |d.ca[t.reason[t.lits[k].v]]| >= 1
    ensures forall j :: 1 <= j < |d.ca[t.reason[t.lits[k].v]]| ==> FalseBefore(t, d.ca[t.reason[t.lits[k].v]][j], k)
  {
    HasReason(t, d, k);
  }

  lemma StartPlaces(t: Trail, d: Db, before: seq<nat>, seen: seq<nat>, out: Clause, confl: nat)
    requires TrailOk(t) && d.Live(confl) && Marks(t, before, [], |t.lits|) && OpenPlaces(t, before) == {}
    requires MarksAdded(before, seen, d.ca[confl], 0) && Absorbed(t, seen, d.ca[confl], 0) && Marks(t, seen, out, |t.lits|)
    requires forall v :: 0 <= v < |seen| && v < |before| && before[v] == SOURCE ==> seen[v] == SOURCE
    requires forall j :: 0 <= j < |d.ca[confl]| ==> FalseBefore(t, d.ca[confl][j], |t.lits|)
    ensures MarkedPlaces(t, seen) == Mentioned(t, d.ca[confl], 0)
  {
    hide Limits, Levels, MarkedPlaces, Mentioned, MarksAdded, Absorbed;
    NothingMarked(t, before);
    SameLength(before, seen, d.ca[confl], 0);
    AbsorbedPlaces(t, before, seen, d.ca[confl], 0);
  }

  lemma SameLength(before: seq<nat>, seen: seq<nat>, c: Clause, from: nat)
    requires MarksAdded(before, seen, c, from)
    ensures |before| == |seen|
  {
  }

  lemma OpenBelow(t: Trail, seen: seq<nat>, out: Clause, hi: nat)
    requires TrailOk(t) && Marks(t, seen, out, hi) && |OpenPlaces(t, seen)| > 0
    ensures hi > 0
  {
    var k := OpenPlace(t, seen, out, hi);
  }

  lemma EmptyOk(n: nat)
    ensures ClauseOk(n, [])
  {
  }

  lemma AppendOk(n: nat, out: Clause, i: nat, kept: Clause)
    requires i < |out| && ClauseOk(n, out) ==> ClauseOk(n, kept)
    requires i < |out| && forall l :: l in kept ==> l in out[..i]
    ensures ClauseOk(n, out) ==> ClauseOk(n, kept + [out[i]])
  {
    if ClauseOk(n, out) {
      forall j | 0 <= j < |kept| ensures kept[j].v != out[i].v {
        assert kept[j] in out[..i];
      }
    }
  }

  lemma MemoSource(t: Trail, d: Db, src: set<nat>, seen: seq<nat>, v: nat)
    requires Memo(t, d, src, seen) && v in src && v < |seen|
    ensures seen[v] == SOURCE && |seen| == |t.pos|
  {
  }

  lemma MemoAll(t: Trail, d: Db, src: set<nat>, seen: seq<nat>)
    requires Memo(t, d, src, seen)
    ensures |seen| == |t.pos|
  {
  }

  lemma TrailSizes(t: Trail)
    requires TrailOk(t)
    ensures Sizes(t)
  {
  }

  lemma NoMarks(t: Trail, seen: seq<nat>)
    requires TrailOk(t) && |seen| == t.Size() && forall v :: 0 <= v < |seen| ==> seen[v] == UNDEF
    ensures Marks(t, seen, [], |t.lits|) && OpenPlaces(t, seen) == {}
  {
  }

  lemma OutTracked(t: Trail, seen: seq<nat>, p: Lit, out: Clause, hi: nat)
    requires Marks(t, seen, out, hi) && OpenPlaces(t, seen) == {} && p.v < |seen| && TrailOk(t)
    ensures forall v :: 0 <= v < |seen| && seen[v] != UNDEF ==> v in VarsOf([Neg(p)] + out)
    ensures forall l :: l in [Neg(p)] + out ==> l.v < |seen|
    ensures forall l :: l in out ==> t.Val(l) == LFalse && l.v in Sources(seen)
  {
    forall v | 0 <= v < |seen| && seen[v] != UNDEF ensures v in VarsOf([Neg(p)] + out) {
      assert t.lits[t.pos[v]].v == v;
      assert t.pos[v] in OpenPlaces(t, seen) || t.pos[v] < t.Base();
      assert v in VarsOf(out);
      var l :| l in out && l.v == v;
      assert l in [Neg(p)] + out;
    }
  }

  /** The learnt clause before its literals are put in order. */
  ghost predicate Shape(t: Trail, p: Lit, kept: Clause) {
    && Sizes(t) && ClauseOk(t.Size(), [Neg(p)] + kept) && t.Val(p) == LTrue && t.level[p.v] == |t.lim|
    && forall l :: l in kept ==> l.v < t.Size() && t.Val(l) == LFalse && 0 < t.level[l.v] < |t.lim|
  }

  lemma LearntShape(t: Trail, seen: seq<nat>, p: Lit, out: Clause, kept: Clause)
    requires TrailOk(t) && p in t.lits && p.v < t.Size() && t.pos[p.v] >= t.Base()
    requires Marks(t, seen, out, t.pos[p.v]) && (forall l :: l in kept ==> l in out)
    requires ClauseOk(t.Size(), out) ==> ClauseOk(t.Size(), kept)
    ensures Shape(t, p, kept)
  {
    hide Limits, Levels;
    var i :| 0 <= i < |t.lits| && t.lits[i] == p;
    CurrentLevel(t, p);
    forall l | l in kept ensures t.Val(l) == LFalse && 0 < t.level[l.v] < |t.lim| && l.v != p.v {
      CurrentLevel(t, l);
    }
    assert forall k :: 0 <= k < |out| ==> out[k] in out;
    var c := [Neg(p)] + kept;
    forall j, k | 0 <= j < k < |c| ensures c[j].v != c[k].v { assert c[k] in kept; }
    forall k | 0 <= k < |c| ensures c[k].v < t.Size() { if k > 0 { assert c[k] in kept; } }
  }

  lemma AttachedFields(d: Db, c: Clause, learnt: bool)
    requires |c| >= 2 && ToInt(Neg(c[0])) < |d.watches| && ToInt(Neg(c[1])) < |d.watches|
    ensures Attached(d, c, learnt).ca == d.ca + [c] && Attached(d, c, learnt).learnt == d.learnt + [learnt]
  {
  }

  lemma AssertingSizes(t: Trail, c: Clause, back: nat)
    requires Asserting(t, c, back)
    ensures |c| > 0 && back < |t.lim| && c[0].v < t.Size()
  {
  }

  /** The clause is exactly what the first implication point and minimisation leave. */
  lemma NowLearnt(t: Trail, d: Db, confl: nat, seen: seq<nat>, p: Lit, out: Clause, kept: Clause, learnt: Clause)
    requires TrailOk(t) && confl < |d.ca| && p in t.lits && p.v < |seen| && t.pos[p.v] >= t.Base() && Marks(t, seen, out, t.pos[p.v])
    requires OpenPlaces(t, seen) == {}
    requires MarkedPlaces(t, seen[p.v := SOURCE]) == UipPlaces(t, d, Mentioned(t, d.ca[confl], 0), |t.lits|)
    requires forall l :: l in kept <==> l in out && !Redundant(t, d, Sources(seen), t.pos[l.v])
    requires Same(learnt, [Neg(p)] + kept) && |learnt| == |kept| + 1 && learnt[0] == Neg(p) && ClauseOk(t.Size(), learnt)
    ensures LearntFrom(t, d, confl, learnt)
  {
    hide TrailOk, Marks, UipPlaces, Mentioned, Redundant, MarkedPlaces, Sources, VarsAt, OpenPlaces, ClauseOk, Same;
    OnTrail(t, p);
    var k := t.pos[p.v];
    var places, rest := MarkedPlaces(t, seen[p.v := SOURCE]), MarkedPlaces(t, seen);
    UipMarks(t, seen, p, out, k);
    MarksBefore(t, seen, out, k);
    forall l | l in kept ensures l.v != p.v { OutPlaces(t, seen, out, l); }
    LearntTail(t.Size(), p, kept, learnt);
    forall l ensures l in learnt[1..] <==> exists n :: n in places && n != k && KeptPlace(t, d, rest, n, l) {
      OutPlaces(t, seen, out, l);
      if l in kept { assert KeptPlace(t, d, rest, t.pos[l.v], l); }
      if n :| n in places && n != k && KeptPlace(t, d, rest, n, l) {
        TrailPlace(t, n);
      }
    }
    assert places - {k} == rest;
    assert forall n :: n in places && n != k ==> n in rest;
    assert k in places && t.Base() <= k < |t.lits| && learnt[0] == Neg(t.lits[k]);
    assert LearntAt(t, d, places, k, learnt);
  }

  lemma MarksBefore(t: Trail, seen: seq<nat>, out: Clause, hi: nat)
    requires Marks(t, seen, out, hi) && hi <= |t.lits|
    ensures Marks(t, seen, out, |t.lits|)
  {
  }

  lemma UipMarks(t: Trail, seen: seq<nat>, p: Lit, out: Clause, k: nat)
    requires TrailOk(t) && p in t.lits && p.v < |seen| && k == t.pos[p.v] && k >= t.Base() && Marks(t, seen, out, k)
    requires OpenPlaces(t, seen) == {}
    ensures k < |t.lits| && k in MarkedPlaces(t, seen[p.v := SOURCE])
    ensures MarkedPlaces(t, seen[p.v := SOURCE]) - {k} == MarkedPlaces(t, seen)
    ensures forall n :: n in MarkedPlaces(t, seen) ==> n < t.Base() && n < |t.lits|
    ensures VarsAt(t, MarkedPlaces(t, seen)) == Sources(seen)
  {
    hide Limits, Levels;
    var i :| 0 <= i < |t.lits| && t.lits[i] == p;
    forall n | n in MarkedPlaces(t, seen) ensures n < t.Base() {
      MarkedIsOpen(t, seen, n);
    }
    forall n | 0 <= n < |t.lits| ensures t.pos[t.lits[n].v] == n {}
    forall v | v in Sources(seen) ensures v in VarsAt(t, MarkedPlaces(t, seen)) {
      assert t.pos[v] in MarkedPlaces(t, seen);
    }
  }

  /** The collected literals are the negations of those at the marked places. */
  lemma OutPlaces(t: Trail, seen: seq<nat>, out: Clause, l: Lit)
    requires TrailOk(t) && Marks(t, seen, out, |t.lits|) && OpenPlaces(t, seen) == {}
    ensures l in out ==> l.v < |t.pos| && t.pos[l.v] in MarkedPlaces(t, seen) && t.pos[l.v] < |t.lits| && l == Neg(t.lits[t.pos[l.v]])
    ensures forall n :: n in MarkedPlaces(t, seen) && l == Neg(t.lits[n]) ==> l in out
  {
    hide Limits, Levels;
    forall n | n in MarkedPlaces(t, seen) && l == Neg(t.lits[n]) ensures l in out {
      MarkedKind(t, seen, out, n);
      var e :| e in out && e.v == t.lits[n].v;
      assert t.pos[e.v] == n;
    }
  }

  lemma LearntTail(n: nat, p: Lit, kept: Clause, learnt: Clause)
    requires Same(learnt, [Neg(p)] + kept) && |learnt| == |kept| + 1 && learnt[0] == Neg(p) && ClauseOk(n, learnt)
    requires forall l :: l in kept ==> l.v != p.v
    ensures forall l :: l in learnt[1..] <==> l in kept
  {
    forall l ensures l in learnt[1..] <==> l in kept {
      if l in learnt[1..] {
        var j :| 0 <= j < |learnt[1..]| && learnt[1..][j] == l;
        assert learnt[j + 1].v != learnt[0].v && l in learnt;
      }
      if l in kept {
        assert l in learnt;
        var j :| 0 <= j < |learnt| && learnt[j] == l;
        assert learnt[1..][j - 1] == l;
      }
    }
  }

  lemma BecomesAsserting(t: Trail, p: Lit, kept: Clause, c: Clause, back: nat)
    requires Shape(t, p, kept) && Same(c, [Neg(p)] + kept) && |c| == |kept| + 1 && c[0] == Neg(p) && |t.lim| > 0
    requires ClauseOk(t.Size(), c) && (forall k :: 1 <= k < |c| ==> c[k] in ([Neg(p)] + kept)[1..])
    requires forall l :: l in ([Neg(p)] + kept)[1..] ==> l.v < |t.level| && t.level[l.v] <= back
    requires if |c| == 1 then back == 0 else c[1].v < |t.level| && t.level[c[1].v] == back
    ensures Asserting(t, c, back)
  {
    assert ([Neg(p)] + kept)[1..] == kept;
  }

  lemma ImpliedSame(t: Trail, d: Db, c: Clause, e: Clause)
    requires Implied(t, d, c) && Same(e, c)
    ensures Implied(t, d, e)
  {
    forall m | Problem(t, d, m) ensures SatClause(m, e) { SameMeaning(e, c, m); }
  }

  lemma Onward(t: Trail, d: Db, u: Trail, e: Db, v: Trail, f: Db)
    requires Grown(t, u) && Grown(u, v) && SameProblem(t, d, u, e) && SameProblem(u, e, v, f)
    ensures Grown(t, v) && SameProblem(t, d, v, f) && |u.lits| <= |v.lits| && u.Base() == v.Base()
  {
    GrownTrans(t, u, v);
  }

  lemma NextUnassigned(t: Trail, c: nat)
    requires TrailOk(t) && c < |t.lits|
    ensures Unassigned(t, c) == Unassigned(t, c + 1)[t.lits[c].v := LUndef]
  {
    var a, b := Unassigned(t, c), Unassigned(t, c + 1)[t.lits[c].v := LUndef];
    forall v | 0 <= v < |a| ensures a[v] == b[v] {
      if t.pos[v] == c && t.assigns[v] != LUndef { assert t.lits[c].v == v; }
    }
  }

  lemma CutReady(t: Trail, d: Db, c: Clause, back: nat)
    requires Kernel(t, d, t.Base(), {}, 0) && Asserting(t, c, back)
    ensures TrailOk(t) && Sizes(CutTo(t, back)) && c[0].v < CutTo(t, back).Size() == t.Size()
  {
  }

  lemma BaseBelow(u: Trail, t: Trail, back: nat, l: Lit)
    requires TrailOk(t) && back < |t.lim| && u.lim == CutTo(t, back).lim && u.lits == CutTo(t, back).lits + [l]
    ensures u.Base() <= t.lim[back] && |u.lits| == t.lim[back] + 1
  {
  }

  lemma OnTrail(t: Trail, p: Lit)
    requires TrailOk(t) && (t.Val(p) == LTrue || p in t.lits)
    ensures p.v < t.Size() && p.v < |t.pos| && t.pos[p.v] < |t.lits| && t.lits[t.pos[p.v]] == p && t.Val(p) == LTrue
  {
    if p in t.lits { var k :| 0 <= k < |t.lits| && t.lits[k] == p; }
  }

  lemma JustOne(t: Trail, p: Lit)
    ensures Decisions(t, {p}, p)
  {
  }

  lemma RootsBound(t: Trail)
    requires TrailOk(t) && |t.lim| > 0
    ensures t.Roots() == t.lim[0] <= |t.lits|
  {
  }

  lemma TraceSize(t: Trail, seen: seq<nat>, v0: nat, hi: nat)
    requires Trace(t, seen, v0, hi)
    ensures |seen| == |t.pos|
  {
  }

  lemma TraceStart(t: Trail, seen: seq<nat>, v0: nat)
    requires TrailOk(t) && |seen| == t.Size() && v0 < |seen| && t.assigns[v0] != LUndef && seen[v0] == SOURCE
    requires forall v :: 0 <= v < |seen| && v != v0 ==> seen[v] == UNDEF
    ensures Trace(t, seen, v0, |t.lits|)
  {
  }

  lemma TraceMark(t: Trail, seen: seq<nat>, v0: nat, hi: nat, l: Lit)
    requires TrailOk(t) && Trace(t, seen, v0, hi) && FalseBefore(t, l, hi)
    ensures l.v < |seen| && l.v < |t.level|
    ensures if t.level[l.v] > 0 then Trace(t, seen[l.v := SOURCE], v0, hi) else t.pos[l.v] < t.Roots()
  {
    CurrentLevel(t, l);
  }

  lemma TraceSource(t: Trail, seen: seq<nat>, v0: nat, hi: nat, v: nat)
    requires Trace(t, seen, v0, hi) && v < |seen| && seen[v] != UNDEF
    ensures seen[v] == SOURCE
  {
  }

  lemma TraceClear(t: Trail, seen: seq<nat>, v0: nat, k: nat)
    requires TrailOk(t) && Trace(t, seen, v0, k + 1) && t.Roots() <= k < |t.lits|
    ensures t.lits[k].v < |seen| && Trace(t, seen[t.lits[k].v := UNDEF], v0, k)
  {
    forall v | 0 <= v < |seen| && t.assigns[v] != LUndef && t.pos[v] == k ensures v == t.lits[k].v {}
  }

  lemma TraceSkip(t: Trail, seen: seq<nat>, v0: nat, k: nat)
    requires TrailOk(t) && Trace(t, seen, v0, k + 1) && t.Roots() <= k < |t.lits| && seen[t.lits[k].v] == UNDEF
    ensures Trace(t, seen, v0, k)
  {
    forall v | 0 <= v < |seen| && t.assigns[v] != LUndef && t.pos[v] == k ensures v == t.lits[k].v {}
  }

  lemma TraceEnd(t: Trail, seen: seq<nat>, v0: nat)
    requires TrailOk(t) && Trace(t, seen, v0, t.Roots())
    ensures forall v :: 0 <= v < |seen| && seen[v] != UNDEF ==> v == v0 && t.pos[v] < t.Roots() && t.pos[v] < |t.lits|
  {
  }

  lemma BackSteps(t: Trail, hyps: seq<Lit>, c: Clause, back: nat, from: int)
    requires Assumed(t, hyps) && Asserting(t, c, back) && (if |c| == 1 then from == -1 else from >= 0)
    ensures TrailOk(CutTo(t, back)) && Assumed(Enqueued(CutTo(t, back), c[0], from), hyps)
    ensures var n := t.Size() + |hyps|; Remaining(Enqueued(CutTo(t, back), c[0], from), n) < Remaining(t, n)
  {
    hide Listed, Limits, Levels, CutTo, Remaining, AssumptionsTrue, DecisionsAssumed;
    BackUnit(t, c, back);
    AssumedBack(t, hyps, back, c[0], from);
    TrailBound(t);
    BackSmaller(t, back, c[0], from, t.Size() + |hyps|);
  }

  lemma DecideSteps(t: Trail, d: Db, hyps: seq<Lit>, l: Lit)
    requires Kernel(t, d, |t.lits|, {}, 0) && Learned(t, d) && Assumed(t, hyps) && l.v < t.Size() && t.Val(l) == LUndef
    requires |t.lim| < |hyps| ==> l == hyps[|t.lim|]
    ensures TrailOk(NewLevel(t))
    ensures var u := Enqueued(NewLevel(t), l, -1);
            && Kernel(u, d, |t.lits|, {}, 0) && Learned(u, d) && SameProblem(t, d, u, d) && Assumed(u, hyps)
            && Remaining(u, t.Size() + |hyps|) < Remaining(t, t.Size() + |hyps|) && u.Base() <= |t.lits|
  {
    hide Listed, Limits, Levels, DbOk, ReasonsOk, WatchOk, Learned, SameProblem, Remaining, AssumptionsTrue, DecisionsAssumed;
    var n := NewLevel(t);
    NewLevelKernel(t, d, |t.lits|);
    NewLevelProblem(t, d);
    EnqueueKernel(n, d, |t.lits|, {}, 0, l, -1);
    DecideProblem(n, d, l);
    SameTrans(t, d, n, d, Enqueued(n, l, -1), d);
    AssumedDecide(t, hyps, l);
    TrailBound(Enqueued(n, l, -1));
    DecideSmaller(t, l, t.Size() + |hyps|);
  }

  lemma DummySteps(t: Trail, d: Db, hyps: seq<Lit>, place: nat)
    requires Kernel(t, d, place, {}, 0) && Learned(t, d) && Assumed(t, hyps) && place == |t.lits|
    requires |t.lim| < |hyps| && hyps[|t.lim|].v < t.Size() && t.Val(hyps[|t.lim|]) == LTrue
    ensures var u := NewLevel(t);
            && Kernel(u, d, place, {}, 0) && Learned(u, d) && SameProblem(t, d, u, d) && Assumed(u, hyps)
            && Remaining(u, t.Size() + |hyps|) <= Remaining(t, t.Size() + |hyps|) && u.Base() <= |t.lits|
  {
    hide Listed, Limits, Levels, DbOk, ReasonsOk, WatchOk, Learned, SameProblem, Remaining, AssumptionsTrue, DecisionsAssumed;
    NewLevelKernel(t, d, place);
    NewLevelProblem(t, d);
    AssumedDummy(t, hyps);
    LevelsGrow(t, NewLevel(t), t.Size() + |hyps|);
  }

  lemma FinalReady(t: Trail, d: Db, place: nat, p: Lit)
    requires Kernel(t, d, place, {}, 0) && t.Val(p) == LFalse
    ensures TrailOk(t) && ReasonsOk(t, d) && t.Val(Neg(p)) == LTrue
  {
    ValueNeg(t.assigns, p);
  }

  lemma OneMoreNegated(t: Trail, got: set<nat>, i: nat)
    requires i < |t.lits|
    ensures Negated(t, got + {i}) == Negated(t, got) + {Neg(t.lits[i])}
  {
  }

  lemma FinalAssumptions(t: Trail, hyps: seq<Lit>, conf: set<Lit>, p: Lit)
    requires Assumed(t, hyps) && |t.lim| < |hyps| && p == hyps[|t.lim|] && Decisions(t, conf, Neg(p))
    ensures forall l :: l in conf ==> Neg(l) in hyps
  {
    hide Limits, Levels, AssumptionsTrue, DecisionsAssumed;
    forall l | l in conf ensures Neg(l) in hyps {
      if l == Neg(p) {
        assert Neg(l) == hyps[|t.lim|];
      } else {
        var k :| t.Roots() <= k < |t.lits| && t.lits[k].v < |t.reason| && l == Neg(t.lits[k]) && t.reason[t.lits[k].v] < 0;
        CurrentLevel(t, t.lits[k]);
        DecisionIsAssumption(t, hyps, k);
        assert Neg(l) == t.lits[k];
      }
    }
  }

  lemma GrownAssumptions(t: Trail, u: Trail, hyps: seq<Lit>)
    requires Assumed(t, hyps) && Grown(t, u) && TrailOk(u)
    ensures AssumptionsTrue(u, hyps)
  {
    hide Limits, Levels, DecisionsAssumed, LevelsFilled;
    forall i | 0 <= i < |u.lim| && i < |hyps|
      ensures u.Val(hyps[i]) == LTrue && u.level[hyps[i].v] <= i + 1
    {
      OnTrail(t, hyps[i]);
      var k := t.pos[hyps[i].v];
      assert u.lits[k] == t.lits[k] && u.Val(u.lits[k]) == LTrue;
    }
  }

  lemma GrownDecisions(t: Trail, u: Trail, hyps: seq<Lit>)
    requires Assumed(t, hyps) && Grown(t, u) && TrailOk(u)
    ensures DecisionsAssumed(u, hyps) && LevelsFilled(u, |hyps|)
  {
    hide Listed, Limits, Levels, AssumptionsTrue;
    forall k | 0 <= k < |u.lits| && u.lits[k].v < u.Size() && u.reason[u.lits[k].v] < 0 && 0 < u.level[u.lits[k].v] <= |hyps|
      ensures u.lits[k] == hyps[u.level[u.lits[k].v] - 1]
    {
      if k < |t.lits| { assert u.lits[k] == t.lits[k]; }
    }
  }

  lemma PropagateSteps(t: Trail, u: Trail, hyps: seq<Lit>)
    requires Assumed(t, hyps) && Grown(t, u) && TrailOk(u)
    ensures Assumed(u, hyps) && Remaining(u, u.Size() + |hyps|) <= Remaining(t, t.Size() + |hyps|)
    ensures u.Size() == t.Size() && u.lim == t.lim
  {
    hide TrailOk, AssumptionsTrue, DecisionsAssumed, LevelsFilled, Remaining;
    GrownAssumptions(t, u, hyps);
    GrownDecisions(t, u, hyps);
    GrownLength(t, u);
    LevelsGrow(t, u, t.Size() + |hyps|);
  }

  lemma NoModel(t: Trail, d: Db, cr: int)
    requires Kernel(t, d, t.Base(), {}, 0) && Learned(t, d) && d.Live(cr) && AllFalse(t, d.ca[cr]) && t.lim == []
    ensures forall m :: !Problem(t, d, m)
  {
    forall m ensures !Problem(t, d, m) { RootConflict(t, d, cr, m); }
  }

  lemma KernelReasons(t: Trail, d: Db, place: nat)
    requires Kernel(t, d, place, {}, 0)
    ensures TrailOk(t) && ReasonsOk(t, d)
  {
  }

  lemma KernelTrail(t: Trail, d: Db, place: nat)
    requires Kernel(t, d, place, {}, 0)
    ensures TrailOk(t)
  {
  }

  lemma AllAssumptions(t: Trail, hyps: seq<Lit>)
    requires Assumed(t, hyps) && |t.lim| >= |hyps|
    ensures forall l :: l in hyps ==> t.Val(l) == LTrue
  {
    forall l | l in hyps ensures t.Val(l) == LTrue { var i :| 0 <= i < |hyps| && hyps[i] == l; }
  }

  lemma RestartSteps(t: Trail, d: Db, place: nat, hyps: seq<Lit>)
    requires Kernel(t, d, place, {}, 0) && Learned(t, d) && |t.lim| > 0 && t.Base() <= place
    ensures TrailOk(t)
    ensures var u := CutTo(t, 0);
            && Kernel(u, d, t.lim[0], {}, 0) && Learned(u, d) && SameProblem(t, d, u, d) && Assumed(u, hyps)
            && u.lim == [] && u.Size() == t.Size() && t.lim[0] <= |u.lits|
  {
    hide Listed, Levels, DbOk, ReasonsOk, WatchOk, Learned, SameProblem, Assumed;
    LimitPlace(t, 0);
    CutKernel(t, d, place, 0);
    CutProblem(t, d, 0);
    AssumedStart(CutTo(t, 0), hyps);
  }

  /** A clause with a literal that is true on level 0, or with both signs of a variable, says nothing. */
  lemma AlreadyTrue(t: Trail, d: Db, place: nat, ps: Clause, sorted: Clause)
    requires Kernel(t, d, place, {}, 0) && t.lim == [] && Same(sorted, ps)
    requires exists l :: l in sorted && (t.Val(l) == LTrue || Neg(l) in sorted)
    ensures forall m :: Problem(t, d, m) ==> SatClause(m, ps)
  {
    hide DbOk, ReasonsOk, WatchOk, Limits, Levels;
    var l :| l in sorted && (t.Val(l) == LTrue || Neg(l) in sorted);
    assert l in ps && (Neg(l) in sorted ==> Neg(l) in ps);
    forall m | Problem(t, d, m) ensures SatClause(m, ps) {
      if t.Val(l) == LTrue {
        OnTrail(t, l);
        assert Makes(m, t.lits[t.pos[l.v]]);
      } else {
        assert Makes(m, l) || Makes(m, Neg(l));
      }
    }
  }

  /** What is left of a clause means the same where level 0 holds. */
  lemma KeptMeaning(t: Trail, d: Db, place: nat, ps: Clause, sorted: Clause, kept: Clause)
    requires Kernel(t, d, place, {}, 0) && t.lim == [] && Same(sorted, ps) && Ascending(kept)
    requires (forall l :: l in ps ==> l.v < t.Size()) && (forall l :: l in kept ==> l in sorted && t.Val(l) == LUndef)
    requires forall l :: l in sorted ==> l in kept || t.Val(l) == LFalse
    ensures ClauseOk(t.Size(), kept)
    ensures forall m :: Problem(t, d, m) ==> (SatClause(m, ps) <==> SatClause(m, kept))
  {
    hide DbOk, ReasonsOk, WatchOk, Limits, Levels, Problem;
    AscendingOk(t.Size(), kept);
    forall m | Problem(t, d, m) ensures SatClause(m, ps) <==> SatClause(m, kept) {
      if SatClause(m, ps) {
        var l :| l in ps && Makes(m, l);
        if t.Val(l) == LFalse {
          assert FalseBefore(t, l, t.Roots());
          FalseAtRoot(t, d, m, l);
        }
      }
    }
  }

  lemma UnitSteps(t: Trail, d: Db, place: nat, l: Lit)
    requires Kernel(t, d, place, {}, 0) && Learned(t, d) && t.lim == [] && place <= |t.lits|
    requires l.v < t.Size() && t.Val(l) == LUndef
    ensures Sizes(t)
    ensures var u := Enqueued(t, l, -1);
            && Kernel(u, d, place, {}, 0) && Learned(u, d)
            && forall m :: Problem(u, d, m) <==> Problem(t, d, m) && SatClause(m, [l])
  {
    hide DbOk, ReasonsOk, WatchOk, Listed, Limits, Levels, Problem;
    EnqueueKernel(t, d, place, {}, 0, l, -1);
    RootLearned(t, d, l);
    forall m ensures Problem(Enqueued(t, l, -1), d, m) <==> Problem(t, d, m) && SatClause(m, [l]) {
      RootProblem(t, d, l, m);
      assert l in [l];
    }
  }

  lemma SameOnwards(u: Trail, d: Db, v: Trail, e: Db)
    requires SameProblem(u, d, v, e)
    ensures forall m :: Problem(u, d, m) <==> Problem(v, e, m)
  {
  }

  lemma ClauseSteps(t: Trail, d: Db, place: nat, c: Clause)
    requires Kernel(t, d, place, {}, 0) && Learned(t, d) && |c| >= 2 && ClauseOk(t.Size(), c)
    requires forall l :: l in c ==> t.Val(l) == LUndef
    ensures ToInt(Neg(c[0])) < |d.watches| && ToInt(Neg(c[1])) < |d.watches|
    ensures var e := Attached(d, c, false);
            && Kernel(t, e, place, {}, 0) && Learned(t, e)
            && forall m :: Problem(t, e, m) <==> Problem(t, d, m) && SatClause(m, c)
  {
    hide TrailOk, ListsOk, ReasonsOk, WatchOk, Problem, SatClause, Learned, Attached, ToInt, Neg;
    assert c[0] in c && c[1] in c;
    AttachKernel(t, d, place, c, false, {}, 0);
    AttachedLearned(t, d, c);
    forall m ensures Problem(t, Attached(d, c, false), m) <==> Problem(t, d, m) && SatClause(m, c) {
      AttachProblem(t, d, c, m);
    }
  }

  lemma LiveHere(t: Trail, d: Db, cr: nat)
    requires Kernel(t, d, |t.lits|, {}, 0) && Dispensable(t, d, cr)
    ensures d.Live(cr) && |d.ca| == |d.dead| && |d.ca[cr]| >= 2 && d.ca[cr][0].v < |t.reason|
  {
  }

  lemma TrueHere(t: Trail, d: Db, k: nat)
    requires Kernel(t, d, k, {}, 0) && k < |t.lits| && t.Base() <= k
    ensures Current(t, t.lits[k], ToInt(t.lits[k]))
  {
    CurrentLevel(t, t.lits[k]);
  }

  lemma WithoutMiddle(kept: seq<Watcher>, w: Watcher, rest: seq<Watcher>)
    ensures Without(kept + [w] + rest, |kept|) == kept + rest
  {
  }

  lemma SwapSecond(c: Clause, k: nat)
    requires 1 < k < |c|
    ensures |Swap(c, 1, k)| == |c| && Swap(c, 1, k)[1] == c[k]
  {
  }

  lemma SwapReordered(n: nat, d: Db, cr: nat, i: nat, j: nat)
    requires cr < |d.ca| && i < |d.ca[cr]| && j < |d.ca[cr]|
    ensures Reordered(d, WithClause(d, cr, Swap(d.ca[cr], i, j)))
  {
    SwapOk(n, d.ca[cr], i, j);
  }

  lemma ReorderedLists(d: Db, e: Db, f: Db)
    requires Reordered(d, e) && e.ca == f.ca && e.dead == f.dead && e.learnt == f.learnt
    ensures Reordered(d, f)
  {
  }

  /** The literal that takes over the watch has another list. */
  lemma WatchIndex(t: Trail, d: Db, place: nat, pending: set<nat>, q: nat, cr: nat, k: nat)
    requires Kernel(t, d, place, pending, q) && d.Live(cr) && 1 < k < |d.ca[cr]| && ToInt(Neg(d.ca[cr][1])) == q
    ensures ToInt(Neg(d.ca[cr][k])) < |d.watches| && ToInt(Neg(d.ca[cr][k])) != q
  {
    assert d.ca[cr][1].v != d.ca[cr][k].v;
  }

  lemma SameCrefs(w: Watcher, v: Watcher, rest: seq<Watcher>)
    requires w.cref == v.cref
    ensures Crefs([w] + rest) == Crefs([v] + rest)
  {
    forall b ensures b in Crefs([w] + rest) <==> b in Crefs([v] + rest) {
      if b in Crefs([w] + rest) {
        var k :| 0 <= k < |[w] + rest| && ([w] + rest)[k].cref == b;
        assert ([v] + rest)[k].cref == b;
      }
      if b in Crefs([v] + rest) {
        var k :| 0 <= k < |[v] + rest| && ([v] + rest)[k].cref == b;
        assert ([w] + rest)[k].cref == b;
      }
    }
  }

  lemma MayEnqueueLists(t: Trail, d: Db, e: Db, l: Lit, from: int)
    requires MayEnqueue(t, d, l, from) && e.ca == d.ca && e.dead == d.dead
    ensures MayEnqueue(t, e, l, from)
  {
  }

  /** All literals but the first are false: the first is implied. */
  lemma UnitClause(t: Trail, d: Db, place: nat, pending: set<nat>, q: nat, p: Lit, cr: nat)
    requires Kernel(t, d, place, pending, q) && Current(t, p, q) && d.Live(cr) && place <= |t.lits|
    requires |d.ca[cr]| >= 2 && d.ca[cr][1] == Neg(p) && t.Val(d.ca[cr][0]) == LUndef
    requires forall j :: 2 <= j < |d.ca[cr]| ==> t.Val(d.ca[cr][j]) == LFalse
    ensures MayEnqueue(t, d, d.ca[cr][0], cr) && TrailOk(t)
    ensures var u := Enqueued(t, d.ca[cr][0], cr); Kernel(u, d, place, pending - {cr}, q) && Current(u, p, q) && Grown(t, u)
  {
    hide ReasonsOk, WatchOk, Listed, Limits, Levels, ListsOk, ClauseOk, TrueBy;
    var l := d.ca[cr][0];
    InRange(t.Size(), d, cr, 0);
    var u := Enqueued(t, l, cr);
    ValueNeg(t.assigns, p);
    EnqueueKernel(t, d, place, pending, q, l, cr);
    GrownEnqueue(t, l, cr);
    EnqueueOk(t, l, cr);
    assert l in d.ca[cr] && u.Val(l) == LTrue;
    BlockerTrue(u, d, place, pending, q, p, cr, l);
  }

  lemma InRange(n: nat, d: Db, cr: nat, k: nat)
    requires ClausesOk(n, d) && d.Live(cr) && k < |d.ca[cr]|
    ensures d.ca[cr][k].v < n
  {
  }

  /** What an entry of a watch list says about its clause. */
  lemma EntryHere(t: Trail, d: Db, place: nat, pending: set<nat>, q: nat, j: nat)
    requires Kernel(t, d, place, pending, q) && q < |d.watches| && j < |d.watches[q]| && d.Live(d.watches[q][j].cref)
    ensures |d.ca[d.watches[q][j].cref]| >= 2
    ensures t.Val(d.watches[q][j].blocker) == LTrue ==> d.watches[q][j].blocker in d.ca[d.watches[q][j].cref]
    ensures Watched(d.ca[d.watches[q][j].cref], q)
  {
    assert EntryOk(d, q, d.watches[q][j]);
  }

  lemma BlockerTrue(t: Trail, d: Db, place: nat, pending: set<nat>, q: nat, p: Lit, cr: nat, b: Lit)
    requires Kernel(t, d, place, pending, q) && Current(t, p, q) && d.Live(cr) && b in d.ca[cr] && t.Val(b) == LTrue
    ensures Kernel(t, d, place, pending - {cr}, q)
  {
    hide DbOk, ReasonsOk, WatchOk, Listed, Limits, Levels, ToInt, Neg;
    CurrentOnly(t, p, q);
    CurrentLevel(t, b);
    Handled(t, d, place, pending, q, cr);
  }

  /** Once its first clause is dealt with, the clauses still pending are those of the rest of the list. */
  lemma Fewer(t: Trail, d: Db, place: nat, w: Watcher, rest: seq<Watcher>, q: nat)
    requires Kernel(t, d, place, Crefs([w] + rest) - {w.cref}, q)
    ensures Kernel(t, d, place, Crefs(rest), q)
  {
    hide TrailOk, DbOk, ReasonsOk, TrueBy, FalseBefore;
    forall b | b in Crefs([w] + rest) - {w.cref} ensures b in Crefs(rest) {
      var k :| 0 <= k < |[w] + rest| && ([w] + rest)[k].cref == b;
      assert rest[k - 1].cref == b;
    }
  }


  lemma ReorderedRefl(d: Db)
    ensures Reordered(d, d)
  {
  }
}
