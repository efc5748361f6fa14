/** What propagation does to every single clause of a frame, and the final subsumption to those of the last frame. */
module Sweeps {
  import opened Aigs
  import opened Frames
  import opened Compaction

  function Elements(es: seq<int>): set<int> { set e | e in es }

  /** Exactly the proper super-clauses of `gen` among the entries `es` have been marked. */
  ghost predicate Marked(clauses: seq<Clause>, before: seq<bool>, after: seq<bool>, es: seq<int>, gen: Clause) {
    && |before| == |after| == |clauses|
    && forall a :: 0 <= a < |clauses| ==>
         (after[a] <==> before[a] || (a in es && |gen| < |clauses[a]| && Subset(gen, clauses[a])))
  }

  ghost predicate Below(c: Clause, d: Clause) { |c| < |d| && Subset(c, d) }

  ghost predicate Even(st: Store) { |st.clauses| == |st.at| == |st.subsumed| }

  ghost predicate Shortest(clauses: seq<Clause>, es: seq<int>) {
    && (forall e :: e in es ==> 0 <= e < |clauses|)
    && forall j, k :: 0 <= j < k < |es| && es[j] in es && es[k] in es ==> |clauses[es[j]]| <= |clauses[es[k]]|
  }

  // ---------- propagation of one frame ----------

  /** Clause `b` is unmarked and follows in one step from the frame. */
  ghost predicate Goes(g: Circuit, st: Store, f: int, b: int) {
    0 <= b < |st.clauses| && b < |st.subsumed| && !st.subsumed[b] && Implies(g, st, f, st.clauses[b])
  }

  /** Entry `l` has been visited: released if marked, moved to the next frame if the frame implies it, left alone if not. */
  ghost predicate Visited(g: Circuit, st: Store, st': Store, f: nat, l: int) {
    && Even(st) && 0 <= l < |st.clauses| && f + 1 < |st.frames|
    && if st.subsumed[l] then st' == Released(st, l, st'.frames)
       else if Goes(g, st, f, l) then
         && st'.clauses == st.clauses && st'.at == st.at[l := f + 1]
         && Marked(st.clauses, st.subsumed, st'.subsumed, st.frames[f + 1], st.clauses[l])
       else st' == st.(frames := st'.frames)
  }

  /** An entry of the frame that has had its turn. */
  ghost predicate Served(g: Circuit, st: Store, st': Store, f: nat, a: int)
    requires Even(st) && Even(st') && 0 <= a < |st.clauses| == |st'.clauses|
  {
    if st.subsumed[a] then st'.at[a] == -1 && st'.clauses[a] == [] && !st'.subsumed[a]
    else st'.clauses[a] == st.clauses[a] && !st'.subsumed[a] && st'.at[a] == if Goes(g, st, f, a) then f + 1 else f
  }

  ghost predicate Hit(g: Circuit, st: Store, f: nat, done: set<int>, a: int)
    requires 0 <= a < |st.clauses|
  {
    exists b :: b in done && Goes(g, st, f, b) && Below(st.clauses[b], st.clauses[a])
  }

  /** Any other clause: at most marked, by a clause that has gone to its frame. */
  ghost predicate Spared(g: Circuit, st: Store, st': Store, f: nat, done: set<int>, a: int)
    requires Even(st) && Even(st') && 0 <= a < |st.clauses| == |st'.clauses|
  {
    && st'.clauses[a] == st.clauses[a] && st'.at[a] == st.at[a]
    && (st'.subsumed[a] <==> (st.subsumed[a] || (st.at[a] == f + 1 && Hit(g, st, f, done, a))))
  }

  /** The entries `done` of the frame have been released, pushed or kept, and nothing else has changed but marks. */
  ghost predicate Swept(g: Circuit, st: Store, st': Store, f: nat, done: set<int>) {
    && Even(st) && Even(st') && |st'.clauses| == |st.clauses|
    && forall a :: 0 <= a < |st.clauses| ==>
         if a in done then Served(g, st, st', f, a) else Spared(g, st, st', f, done, a)
  }

  lemma SweptStart(g: Circuit, st: Store, f: nat, frames: seq<seq<int>>)
    requires Even(st)
    ensures Swept(g, st, st.(frames := frames), f, {})
  {
  }

  lemma SweptFrames(g: Circuit, st: Store, st': Store, f: nat, done: set<int>, frames: seq<seq<int>>)
    requires Swept(g, st, st', f, done)
    ensures Swept(g, st, st'.(frames := frames), f, done)
  {
  }

  lemma SameImplies(g: Circuit, st: Store, st': Store, f: int, k: int, c: Clause)
    requires StableUpTo(st, st', f) && k <= f
    ensures Implies(g, st, k, c) <==> Implies(g, st', k, c)
  {
  }

  /** One more entry. */
  lemma SweptNext(g: Circuit, st0: Store, st: Store, st': Store, f: nat, es: seq<int>, j: nat)
    requires j < |es| && Distinct(es) && Shortest(st0.clauses, es)
    requires forall e :: e in es ==> st0.Live(e) && st0.at[e] == f
    requires Swept(g, st0, st, f, Elements(es[..j])) && StableUpTo(st0, st, f)
    requires Visited(g, st, st', f, es[j])
    requires forall e :: 0 <= e < |st.clauses| ==> (e in st.frames[f + 1] <==> st.at[e] == f + 1)
    ensures Swept(g, st0, st', f, Elements(es[..j + 1]))
  {
    hide Implies, Subset, StableUpTo;
    var done, done', l := Elements(es[..j]), Elements(es[..j + 1]), es[j];
    assert es[..j + 1] == es[..j] + [l];
    assert done' == done + {l};
    assert l !in done;
    assert l in es;
    SameImplies(g, st0, st, f, f, st0.clauses[l]);
    assert st.clauses[l] == st0.clauses[l] && st.at[l] == f && st.subsumed[l] == st0.subsumed[l];
    forall a | 0 <= a < |st0.clauses|
      ensures if a in done' then Served(g, st0, st', f, a) else Spared(g, st0, st', f, done', a)
    {
      OneSwept(g, st0, st, st', f, es, j, a);
    }
  }

  lemma OneSwept(g: Circuit, st0: Store, st: Store, st': Store, f: nat, es: seq<int>, j: nat, a: int)
    requires j < |es| && Shortest(st0.clauses, es) && 0 <= a < |st0.clauses|
    requires forall e :: e in es ==> st0.Live(e) && st0.at[e] == f
    requires Swept(g, st0, st, f, Elements(es[..j])) && es[j] !in Elements(es[..j])
    requires Visited(g, st, st', f, es[j])
    requires Goes(g, st0, f, es[j]) <==> Goes(g, st, f, es[j])
    requires forall e :: 0 <= e < |st.clauses| ==> (e in st.frames[f + 1] <==> st.at[e] == f + 1)
    ensures Even(st') && |st'.clauses| == |st0.clauses|
    ensures if a in Elements(es[..j]) + {es[j]} then Served(g, st0, st', f, a)
            else Spared(g, st0, st', f, Elements(es[..j]) + {es[j]}, a)
  {
    hide Implies, Subset, Goes, Marked, Served, Spared, Visited;
    var done, l := Elements(es[..j]), es[j];
    assert l in es && l !in done;
    var c := st0.clauses[l];
    VisitedElse(g, st0, st, st', f, done, l, a);
    if a in done {
      var k :| 0 <= k < j && es[k] == a;
      assert a in es && |st0.clauses[a]| <= |c|;
      ServedStays(g, st0, st, st', f, l, a);
    } else if a == l {
      NowServed(g, st0, st, st', f, done, l);
    } else {
      SparedStays(g, st0, st, st', f, done, l, a);
    }
  }

  /** A visit touches nothing but the entry itself and marks. */
  lemma VisitedElse(g: Circuit, st0: Store, st: Store, st': Store, f: nat, done: set<int>, l: int, a: int)
    requires Swept(g, st0, st, f, done) && Visited(g, st, st', f, l) && 0 <= a < |st.clauses| && l !in done
    requires Goes(g, st0, f, l) <==> Goes(g, st, f, l)
    requires forall e :: 0 <= e < |st.clauses| ==> (e in st.frames[f + 1] <==> st.at[e] == f + 1)
    ensures Even(st') && |st'.clauses| == |st.clauses| && 0 <= l < |st.clauses|
    ensures if a in done then Served(g, st0, st, f, a) else Spared(g, st0, st, f, done, a)
    ensures a != l ==> st'.clauses[a] == st.clauses[a] && st'.at[a] == st.at[a]
    ensures a != l ==> (st'.subsumed[a] <==> (st.subsumed[a] ||
              (Goes(g, st0, f, l) && st.at[a] == f + 1 && Below(st0.clauses[l], st.clauses[a]))))
  {
    hide Implies, Subset, Served, Goes;
    assert Spared(g, st0, st, f, done, l);
    if st.subsumed[l] { MarkedStays(g, st, f, l); }
  }

  lemma MarkedStays(g: Circuit, st: Store, f: int, l: int)
    requires 0 <= l < |st.subsumed| && st.subsumed[l]
    ensures !Goes(g, st, f, l)
  {
  }

  lemma ServedStays(g: Circuit, st0: Store, st: Store, st': Store, f: nat, l: int, a: int)
    requires Even(st0) && Even(st) && Even(st') && 0 <= a < |st0.clauses| == |st.clauses| == |st'.clauses|
    requires Served(g, st0, st, f, a) && 0 <= l < |st0.clauses| && |st0.clauses[a]| <= |st0.clauses[l]|
    requires st'.clauses[a] == st.clauses[a] && st'.at[a] == st.at[a]
    requires st'.subsumed[a] <==> (st.subsumed[a] ||
               (Goes(g, st0, f, l) && st.at[a] == f + 1 && Below(st0.clauses[l], st.clauses[a])))
    ensures Served(g, st0, st', f, a)
  {
    hide Goes;
  }

  lemma NowServed(g: Circuit, st0: Store, st: Store, st': Store, f: nat, done: set<int>, l: int)
    requires Even(st0) && Even(st) && Even(st') && 0 <= l < |st0.clauses| == |st.clauses| == |st'.clauses|
    requires Spared(g, st0, st, f, done, l) && Visited(g, st, st', f, l) && st0.at[l] == f
    requires Goes(g, st0, f, l) <==> Goes(g, st, f, l)
    requires forall e :: 0 <= e < |st.clauses| ==> (e in st.frames[f + 1] <==> st.at[e] == f + 1)
    ensures Served(g, st0, st', f, l)
  {
    hide Goes, Subset;
  }

  lemma SparedStays(g: Circuit, st0: Store, st: Store, st': Store, f: nat, done: set<int>, l: int, a: int)
    requires Even(st0) && Even(st) && Even(st') && 0 <= a < |st0.clauses| == |st.clauses| == |st'.clauses|
    requires Spared(g, st0, st, f, done, a) && 0 <= l < |st0.clauses|
    requires st'.clauses[a] == st.clauses[a] && st'.at[a] == st.at[a]
    requires st'.subsumed[a] <==> (st.subsumed[a] ||
               (Goes(g, st0, f, l) && st.at[a] == f + 1 && Below(st0.clauses[l], st.clauses[a])))
    ensures Spared(g, st0, st', f, done + {l}, a)
  {
    hide Goes, Below;
  }

  /** No clause of frame `k` is marked, and none of them follows in one step from the frame. */
  ghost predicate Stuck(g: Circuit, st: Store, k: int) {
    forall a :: st.Live(a) && st.at[a] == k ==> a < |st.subsumed| && !st.subsumed[a] && !Implies(g, st, k, st.clauses[a])
  }

  /** After its sweep a frame has kept exactly the clauses that could not be pushed. */
  lemma SweptStuck(g: Circuit, st: Store, st': Store, f: nat, done: set<int>)
    requires Swept(g, st, st', f, done) && StableUpTo(st, st', f)
    requires forall a :: st.Live(a) && st.at[a] == f ==> a in done
    ensures Stuck(g, st', f)
  {
    hide Implies, StableUpTo;
    forall a | st'.Live(a) && st'.at[a] == f ensures !st'.subsumed[a] && !Implies(g, st', f, st'.clauses[a]) {
      assert a !in done ==> Spared(g, st, st', f, done, a) && st.Live(a);
      SameImplies(g, st, st', f, f, st.clauses[a]);
    }
  }

  /** The sweep of a later frame leaves it that way. */
  lemma StuckStays(g: Circuit, st: Store, st': Store, f: nat, done: set<int>, k: int)
    requires Swept(g, st, st', f, done) && StableUpTo(st, st', f) && k < f && Stuck(g, st, k)
    requires forall a :: a in done && 0 <= a < |st.clauses| ==> st.at[a] == f
    ensures Stuck(g, st', k)
  {
    hide Implies, StableUpTo;
    forall a | st'.Live(a) && st'.at[a] == k ensures !st'.subsumed[a] && !Implies(g, st', k, st'.clauses[a]) {
      assert a !in done && Spared(g, st, st', f, done, a) && st.Live(a);
      SameImplies(g, st, st', f, k, st.clauses[a]);
    }
  }

  // ---------- the last frame ----------

  /** Entry `l` of the last frame has been visited: released if marked, otherwise used to mark the entries `rest`. */
  ghost predicate VisitedLast(st: Store, st': Store, l: int, rest: seq<int>) {
    && Even(st) && 0 <= l < |st.clauses|
    && if st.subsumed[l] then st' == Released(st, l, st'.frames)
       else st' == st.(frames := st'.frames, subsumed := st'.subsumed)
            && Marked(st.clauses, st.subsumed, st'.subsumed, rest, st.clauses[l])
  }

  /** A live clause among `done` is a proper part of `c`. */
  ghost predicate PartIn(st: Store, done: set<int>, c: Clause) {
    exists b :: b in done && st.Live(b) && Below(st.clauses[b], c)
  }

  ghost predicate Gone(st: Store, a: int)
    requires Even(st) && 0 <= a < |st.clauses|
  {
    st.at[a] == -1 && st.clauses[a] == [] && !st.subsumed[a]
  }

  ghost predicate Remains(st: Store, st': Store, a: int)
    requires Even(st) && Even(st') && 0 <= a < |st.clauses| == |st'.clauses|
  {
    st'.at[a] == st.at[a] && st'.clauses[a] == st.clauses[a]
  }

  ghost predicate CleanedAt(st: Store, st': Store, all: set<int>, done: set<int>, a: int)
    requires Even(st) && Even(st') && 0 <= a < |st.clauses| == |st'.clauses|
  {
    if a in done then
      if st.subsumed[a] || PartIn(st', done, st.clauses[a]) then Gone(st', a) else Remains(st, st', a) && !st'.subsumed[a]
    else Remains(st, st', a) && (st'.subsumed[a] <==> (st.subsumed[a] || (a in all && PartIn(st', done, st.clauses[a]))))
  }

  /** Of the entries `done` among `all` exactly those have been released that were marked or have a proper part among the
      rest of them; nothing else has changed but marks. */
  ghost predicate Cleaned(st: Store, st': Store, all: set<int>, done: set<int>) {
    && Even(st) && Even(st') && |st'.clauses| == |st.clauses| && done <= all
    && forall a :: 0 <= a < |st.clauses| ==> CleanedAt(st, st', all, done, a)
  }

  lemma CleanedStart(st: Store, frames: seq<seq<int>>, all: set<int>)
    requires Even(st)
    ensures Cleaned(st, st.(frames := frames), all, {})
  {
  }

  lemma CleanedFrames(st: Store, st': Store, all: set<int>, done: set<int>, frames: seq<seq<int>>)
    requires Cleaned(st, st', all, done)
    ensures Cleaned(st, st'.(frames := frames), all, done)
  {
    var st2 := st'.(frames := frames);
    forall c ensures PartIn(st2, done, c) <==> PartIn(st', done, c) {
      if b :| b in done && st'.Live(b) && Below(st'.clauses[b], c) { assert st2.Live(b); }
      if b :| b in done && st2.Live(b) && Below(st2.clauses[b], c) { assert st'.Live(b); }
    }
    forall a | 0 <= a < |st.clauses| ensures CleanedAt(st, st2, all, done, a) {
      assert CleanedAt(st, st', all, done, a);
    }
  }

  /** One more entry of the last frame. */
  lemma CleanedNext(st0: Store, st: Store, st': Store, es: seq<int>, j: nat)
    requires j < |es| && Distinct(es) && Shortest(st0.clauses, es)
    requires forall e :: e in es ==> st0.Live(e)
    requires Cleaned(st0, st, Elements(es), Elements(es[..j])) && VisitedLast(st, st', es[j], es[j + 1..])
    ensures Cleaned(st0, st', Elements(es), Elements(es[..j + 1]))
  {
    hide Subset;
    var all, done, l := Elements(es), Elements(es[..j]), es[j];
    assert es[..j + 1] == es[..j] + [l];
    assert Elements(es[..j + 1]) == done + {l};
    assert l in es && l !in done;
    assert CleanedAt(st0, st, all, done, l);
    forall a | 0 <= a < |st0.clauses| ensures CleanedAt(st0, st', all, done + {l}, a) {
      assert CleanedAt(st0, st, all, done, a);
      assert a in all && a !in done && a != l ==> a in es[j + 1..] by { RestMember(es, j, a); }
      assert a in es[j + 1..] ==> a in all && a !in done && a != l;
      PartInNext(st, st', done, l, es[j + 1..], st0.clauses[a]);
      if a in done {
        var k :| 0 <= k < j && es[k] == a;
        assert a in es && |st0.clauses[a]| <= |st0.clauses[l]|;
      }
      OneCleaned(st0, st, st', all, done, l, es[j + 1..], a);
    }
  }

  lemma RestMember(es: seq<int>, j: nat, a: int)
    requires j < |es|
    ensures a in Elements(es) && a !in Elements(es[..j]) && a != es[j] ==> a in es[j + 1..]
  {
    assert es == es[..j] + [es[j]] + es[j + 1..];
  }

  lemma PartInNext(st: Store, st': Store, done: set<int>, l: int, rest: seq<int>, c: Clause)
    requires VisitedLast(st, st', l, rest) && l !in done
    ensures PartIn(st', done + {l}, c) <==>
            (PartIn(st, done, c) || (!st.subsumed[l] && st.Live(l) && Below(st.clauses[l], c)))
  {
    hide Below, Marked;
    if b :| b in done + {l} && st'.Live(b) && Below(st'.clauses[b], c) {
      assert st.Live(b) && st.clauses[b] == st'.clauses[b];
    }
    if b :| b in done && st.Live(b) && Below(st.clauses[b], c) {
      assert st'.Live(b) && st.clauses[b] == st'.clauses[b];
    }
    if !st.subsumed[l] && st.Live(l) && Below(st.clauses[l], c) { assert st'.Live(l); }
  }

  lemma OneCleaned(st0: Store, st: Store, st': Store, all: set<int>, done: set<int>, l: int, rest: seq<int>, a: int)
    requires Cleaned(st0, st, all, done) && VisitedLast(st, st', l, rest) && l in all && l !in done && st.Live(l)
    requires 0 <= a < |st0.clauses| && st.clauses[l] == st0.clauses[l] && CleanedAt(st0, st, all, done, a)
    requires CleanedAt(st0, st, all, done, l)
    requires a in rest <==> a in all && a !in done && a != l
    requires a in done ==> |st0.clauses[a]| <= |st0.clauses[l]|
    requires PartIn(st', done + {l}, st0.clauses[a]) <==>
             (PartIn(st, done, st0.clauses[a]) || (!st.subsumed[l] && Below(st.clauses[l], st0.clauses[a])))
    ensures Even(st') && |st'.clauses| == |st0.clauses| && CleanedAt(st0, st', all, done + {l}, a)
  {
    hide Subset, PartIn;
  }

  /** No clause of the last frame is marked or a proper part of another one. */
  ghost predicate Clean(st: Store) {
    forall a, b :: st.Live(a) && st.at[a] == st.Depth() && st.Live(b) && st.at[b] == st.Depth() ==>
      a < |st.subsumed| && !st.subsumed[a] && !Below(st.clauses[b], st.clauses[a])
  }

  lemma CleanedClean(st: Store, st': Store, all: set<int>)
    requires Cleaned(st, st', all, all) && |st'.frames| == |st.frames| && st.Depth() >= 0
    requires forall a :: st.Live(a) && st.at[a] == st.Depth() ==> a in all
    ensures Clean(st')
  {
    hide Below;
    forall a, b | st'.Live(a) && st'.at[a] == st'.Depth() && st'.Live(b) && st'.at[b] == st'.Depth()
      ensures !st'.subsumed[a] && !Below(st'.clauses[b], st'.clauses[a])
    {
      assert CleanedAt(st, st', all, all, a) && CleanedAt(st, st', all, all, b);
      assert st.Live(a) && st.Live(b);
      assert !PartIn(st', all, st'.clauses[a]);
    }
  }

  /** The sweep of the last frame leaves the others as they are. */
  lemma StuckBefore(g: Circuit, st: Store, st': Store, all: set<int>, k: int)
    requires Cleaned(st, st', all, all) && SameFrames(st, st') && k < st.Depth() && Stuck(g, st, k)
    requires forall a :: a in all && 0 <= a < |st.clauses| ==> st.at[a] == st.Depth()
    ensures Stuck(g, st', k)
  {
    hide Implies, PartIn;
    forall a | st'.Live(a) && st'.at[a] == k ensures !st'.subsumed[a] && !Implies(g, st', k, st'.clauses[a]) {
      assert CleanedAt(st, st', all, all, a) && st.Live(a);
      SameIsStable(st, st', k);
      SameImplies(g, st, st', k, k, st.clauses[a]);
    }
  }
}
