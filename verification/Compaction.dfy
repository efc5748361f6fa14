/** One frame list while it is compacted in place: kept entries in front, a stale middle, entries still to visit. */
module Compaction {
  import opened Aigs
  import opened Frames

  /** The frames other than `f` are exact. */
  ghost predicate OthersExact(st: Store, f: nat) {
    && (forall k, e {:trigger e in st.frames[k]} ::
          0 <= k < |st.frames| && k != f && e in st.frames[k] ==> st.Live(e) && st.at[e] == k)
    && (forall k :: 0 <= k < |st.frames| && k != f ==> Distinct(st.frames[k]))
    && forall a :: st.Live(a) && st.at[a] < |st.frames| && st.at[a] != f ==> a in st.frames[st.at[a]]
  }

  /** The frame list `es`: positions below `i` are kept, positions from `j` on are still to visit; what lies in
      between is left over and will be cut off. */
  ghost predicate Loose(st: Store, f: nat, es: seq<int>, i: nat, j: nat) {
    && i <= j <= |es|
    && (forall k :: j <= k < |es| ==> st.Live(es[k]) && st.at[es[k]] == f)
    && (forall k :: 0 <= k < i ==> st.Live(es[k]) && st.at[es[k]] == f)
    && (forall k, m :: j <= k < m < |es| ==> es[k] != es[m])
    && (forall k, m :: 0 <= k < i && j <= m < |es| ==> es[k] != es[m])
    && (forall k, m :: 0 <= k < m < i ==> es[k] != es[m])
    && (forall a :: st.Live(a) && st.at[a] == f ==> a in es[..i] || a in es[j..])
  }

  /** The left-overs are copies of kept entries, entries pushed to the next frame, or the constant true, and none of
      them is still to be visited. */
  ghost predicate Stale(st: Store, f: nat, es: seq<int>, i: nat, j: nat) {
    && i <= j <= |es|
    && (forall k :: i <= k < j ==> es[k] == -1 || (st.Live(es[k]) && st.at[es[k]] >= f))
    && (forall k, m :: 0 <= k < j <= m < |es| ==> es[k] != es[m])
  }

  ghost predicate CompactingLoosely(st: Store, f: nat, i: nat, j: nat) {
    f < |st.frames| && OthersExact(st, f) && Loose(st, f, st.frames[f], i, j)
  }

  /** As above, in a state in which the list may also be queried. */
  ghost predicate Compacting(st: Store, f: nat, i: nat, j: nat) {
    CompactingLoosely(st, f, i, j) && Stale(st, f, st.frames[f], i, j)
  }

  lemma StartCompacting(st: Store, f: nat, es: seq<int>)
    requires Listed(st) && Exact(st) && f < |st.frames|
    requires Distinct(es) && forall e :: e in es <==> e in st.frames[f]
    ensures Compacting(st.(frames := st.frames[f := es]), f, 0, 0)
  {
    var st' := st.(frames := st.frames[f := es]);
    assert forall a :: st.Live(a) <==> st'.Live(a);
    assert es[0..] == es;
    forall k | 0 <= k < |es| ensures st'.Live(es[k]) && st'.at[es[k]] == f { assert es[k] in es; }
    forall k, e | 0 <= k < |st'.frames| && k != f && e in st'.frames[k] ensures st'.Live(e) && st'.at[e] == k {
      assert e in st.frames[k];
    }
  }

  /** A compacted list can be queried: nothing it lists is released or too early, nothing live is missing. */
  lemma CompactingSafe(st: Store, f: nat, i: nat, j: nat)
    requires Compacting(st, f, i, j)
    ensures Listed(st) && Safe(st)
  {
    var es := st.frames[f];
    forall a | st.Live(a) && st.at[a] < |st.frames| ensures a in st.frames[st.at[a]] {
      if st.at[a] == f { assert a in es[..i] || a in es[j..]; }
    }
    forall k, e | 0 <= k < |st.frames| && e in st.frames[k] ensures e == -1 || (st.Live(e) && st.at[e] >= k) {
      if k == f {
        var m :| 0 <= m < |es| && es[m] == e;
      }
    }
  }

  lemma EndCompacting(st: Store, f: nat, i: nat)
    requires f < |st.frames| && Compacting(st, f, i, |st.frames[f]|)
    ensures var st' := st.(frames := st.frames[f := st.frames[f][..i]]); Listed(st') && Exact(st')
  {
    EndLoosely(st, f, i);
  }

  lemma EndLoosely(st: Store, f: nat, i: nat)
    requires f < |st.frames| && CompactingLoosely(st, f, i, |st.frames[f]|)
    ensures var st' := st.(frames := st.frames[f := st.frames[f][..i]]); Listed(st') && Exact(st')
  {
    var es := st.frames[f];
    var st' := st.(frames := st.frames[f := es[..i]]);
    assert forall a :: st.Live(a) <==> st'.Live(a);
    forall a | st'.Live(a) && st'.at[a] < |st'.frames| ensures a in st'.frames[st'.at[a]] {
      if st.at[a] == f { assert es[|es|..] == []; assert a in es[..i]; } else { assert a in st.frames[st.at[a]]; }
    }
    forall k, e | 0 <= k < |st'.frames| && e in st'.frames[k] ensures st'.Live(e) && st'.at[e] == k {
      if k == f { var m :| 0 <= m < i && es[m] == e; } else { assert e in st.frames[k]; }
    }
    forall k | 0 <= k < |st'.frames| ensures Distinct(st'.frames[k]) {
      if k != f { assert Distinct(st.frames[k]); }
    }
  }

  /** The entry at `j` is kept. */
  lemma KeepLoosely(st: Store, f: nat, i: nat, j: nat)
    requires CompactingLoosely(st, f, i, j) && j < |st.frames[f]|
    ensures var es := st.frames[f]; CompactingLoosely(st.(frames := st.frames[f := es[i := es[j]]]), f, i + 1, j + 1)
  {
    var es := st.frames[f];
    var es' := es[i := es[j]];
    var st' := st.(frames := st.frames[f := es']);
    assert forall a :: st.Live(a) <==> st'.Live(a);
    assert es'[..i + 1] == es[..i] + [es[j]];
    assert es[j..] == [es[j]] + es'[j + 1..];
    forall k, e | 0 <= k < |st'.frames| && k != f && e in st'.frames[k] ensures st'.Live(e) && st'.at[e] == k {
      assert e in st.frames[k];
    }
    forall a | st'.Live(a) && st'.at[a] == f ensures a in es'[..i + 1] || a in es'[j + 1..] {
      assert a in es[..i] || a in es[j..];
    }
  }

  lemma KeepEntry(st: Store, f: nat, i: nat, j: nat)
    requires Compacting(st, f, i, j) && j < |st.frames[f]|
    ensures var es := st.frames[f]; Compacting(st.(frames := st.frames[f := es[i := es[j]]]), f, i + 1, j + 1)
  {
    KeepLoosely(st, f, i, j);
    assert forall a :: st.Live(a) <==> st.(frames := st.frames[f := st.frames[f][i := st.frames[f][j]]]).Live(a);
  }

  /** The entry at `j` is marked subsumed and released; only left-overs are overwritten. */
  lemma ReleaseLoosely(st: Store, f: nat, i: nat, j: nat, es': seq<int>)
    requires CompactingLoosely(st, f, i, j) && j < |st.frames[f]| && |st.clauses| == |st.at| == |st.subsumed|
    requires |es'| == |st.frames[f]| && es'[..i] == st.frames[f][..i] && es'[j + 1..] == st.frames[f][j + 1..]
    ensures CompactingLoosely(Released(st, st.frames[f][j], st.frames[f := es']), f, i, j + 1)
  {
    var es := st.frames[f];
    var l := es[j];
    var st' := Released(st, l, st.frames[f := es']);
    assert forall a :: st'.Live(a) <==> st.Live(a) && a != l;
    assert es[j..] == [l] + es'[j + 1..];
    forall k | 0 <= k < i ensures es'[k] == es[k] { assert es'[..i][k] == es[..i][k]; }
    forall k | j + 1 <= k < |es| ensures es'[k] == es[k] { assert es'[j + 1..][k - j - 1] == es[j + 1..][k - j - 1]; }
    forall k, e | 0 <= k < |st'.frames| && k != f && e in st'.frames[k] ensures st'.Live(e) && st'.at[e] == k {
      assert e in st.frames[k];
    }
    forall a | st'.Live(a) && st'.at[a] == f ensures a in es'[..i] || a in es'[j + 1..] {
      assert a in es[..i] || a in es[j..];
    }
  }

  lemma ReleaseEntry(st: Store, f: nat, i: nat, j: nat)
    requires Compacting(st, f, i, j) && j < |st.frames[f]| && |st.clauses| == |st.at| == |st.subsumed|
    ensures var es := st.frames[f];
            Compacting(Released(st, es[j], st.frames[f := es[j := -1]]), f, i, j + 1)
  {
    var es := st.frames[f];
    assert es[j := -1][..i] == es[..i] && es[j := -1][j + 1..] == es[j + 1..];
    ReleaseLoosely(st, f, i, j, es[j := -1]);
    assert forall a :: Released(st, es[j], st.frames[f := es[j := -1]]).Live(a) <==> st.Live(a) && a != es[j];
  }

  /** The entry at `j` moves to the next frame; its old position becomes stale. */
  lemma PushEntry(st: Store, f: nat, i: nat, j: nat)
    requires Compacting(st, f, i, j) && j < |st.frames[f]| && |st.clauses| == |st.at| && f + 1 < |st.frames|
    ensures var l := st.frames[f][j];
            Compacting(MovedTo(st, l, f + 1, st.frames[f + 1 := st.frames[f + 1] + [l]]), f, i, j + 1)
  {
    var es := st.frames[f];
    var l := es[j];
    var st' := MovedTo(st, l, f + 1, st.frames[f + 1 := st.frames[f + 1] + [l]]);
    assert forall a :: st'.Live(a) <==> st.Live(a);
    assert es[j..] == [l] + es[j + 1..];
    assert l !in st.frames[f + 1];
    forall k, e | 0 <= k < |st'.frames| && k != f && e in st'.frames[k] ensures st'.Live(e) && st'.at[e] == k {
      if !(k == f + 1 && e == l) { assert e in st.frames[k]; }
    }
    forall a | st'.Live(a) && st'.at[a] < |st'.frames| && st'.at[a] != f ensures a in st'.frames[st'.at[a]] {
      if a == l { assert st'.frames[f + 1][|st.frames[f + 1]|] == l; } else { assert a in st.frames[st.at[a]]; }
    }
    forall k | 0 <= k < |st'.frames| && k != f ensures Distinct(st'.frames[k]) {
      assert Distinct(st.frames[k]);
    }
    forall a | st'.Live(a) && st'.at[a] == f ensures a in es[..i] || a in es[j + 1..] {
      assert a in es[..i] || a in es[j..];
    }
  }

  // ---------- what a sweep does to the frames ----------

  /** The frames up to `f` are the same state sets, later ones may have shrunk. */
  ghost predicate StableUpTo(st: Store, st': Store, f: int) {
    && (forall k: int, s :: k <= f && FrameHolds(st, k, s) ==> FrameHolds(st', k, s))
    && forall k: int, s :: FrameHolds(st', k, s) ==> FrameHolds(st, k, s)
  }

  lemma StableRefl(st: Store, f: int)
    ensures StableUpTo(st, st, f)
  {
  }

  lemma StableTrans(a: Store, b: Store, c: Store, f: int, h: int)
    requires StableUpTo(a, b, f) && StableUpTo(b, c, h) && f <= h
    ensures StableUpTo(a, c, f)
  {
    forall k: int, s | FrameHolds(c, k, s) ensures FrameHolds(a, k, s) { assert FrameHolds(b, k, s); }
    forall k: int, s | k <= f && FrameHolds(a, k, s) ensures FrameHolds(c, k, s) { assert FrameHolds(b, k, s); }
  }

  /** Relisting entries changes no frame. */
  lemma RelistKeeps(g: Circuit, st: Store, frames: seq<seq<int>>)
    requires Core(g, st) && |frames| == |st.frames|
    ensures Core(g, st.(frames := frames)) && SameFrames(st, st.(frames := frames))
  {
    var st' := st.(frames := frames);
    assert forall a :: st.Live(a) <==> st'.Live(a);
    forall i: int, s ensures FrameHolds(st, i, s) <==> FrameHolds(st', i, s) {}
    forall a | st'.Live(a) ensures Pushed(g, st', a) && (st'.subsumed[a] ==> exists b :: Subsumer(st', a, b)) {
      assert Pushed(g, st, a);
      if st.subsumed[a] {
        var b :| Subsumer(st, a, b);
        assert Subsumer(st', a, b);
      }
    }
  }

  lemma SameIsStable(st: Store, st': Store, f: int)
    requires SameFrames(st, st')
    ensures StableUpTo(st, st', f)
  {
  }

  /** Pushing a clause and marking what it subsumes in its new frame. */
  lemma PushAndMark(g: Circuit, st: Store, l: int, frames: seq<seq<int>>, marks: seq<bool>)
    requires Core(g, st) && st.Live(l) && !st.subsumed[l] && st.at[l] + 1 < |st.frames| == |frames|
    requires Implies(g, st, st.at[l], st.clauses[l]) && |marks| == |st.subsumed|
    requires forall a :: st.Live(a) && marks[a] && !st.subsumed[a] ==>
               st.at[a] == st.at[l] + 1 && |st.clauses[l]| < |st.clauses[a]| && Subset(st.clauses[l], st.clauses[a])
    requires forall a :: st.Live(a) && st.subsumed[a] ==> marks[a]
    ensures var fin := MovedTo(st, l, st.at[l] + 1, frames).(subsumed := marks);
            Core(g, fin) && StableUpTo(st, fin, st.at[l])
  {
    var f := st.at[l];
    var st' := MovedTo(st, l, f + 1, frames);
    PushKeeps(g, st, l, frames);
    assert forall a :: st'.Live(a) <==> st.Live(a);
    forall a | st'.Live(a) && marks[a] && !st'.subsumed[a] ensures Subsumer(st', a, l) {}
    MarkKeeps(g, st', l, marks);
    var fin := st'.(subsumed := marks);
    forall k: int, s ensures (FrameHolds(fin, k, s) ==> FrameHolds(st, k, s)) && (k <= f && FrameHolds(st, k, s) ==> FrameHolds(fin, k, s)) {
      MoveFrames(st, l, f + 1, frames, k, s);
      assert FrameHolds(st', k, s) <==> FrameHolds(fin, k, s);
    }
  }

  // ---------- collecting an invariant in the last frame ----------

  /** While the frames from `f0` on are emptied into the last one, F_f0 is the state set it was. */
  ghost predicate MovingSets(g: Circuit, st0: Store, st: Store, f0: nat) {
    && Sized(g, st) && MarksOk(st) && Listed(st) && |st.frames| == |st0.frames|
    && forall s :: FrameHolds(st, f0, s) <==> FrameHolds(st0, f0, s)
  }

  /** Frame `f` still has the entries from `i` on to move, later frames are untouched. */
  ghost predicate MovingLists(st: Store, f0: nat, f: nat, i: nat) {
    && f0 <= f < |st.frames| - 1 && i <= |st.frames[f]|
    && (forall k :: f < k < |st.frames| - 1 ==> Distinct(st.frames[k]) && AllAt(st, st.frames[k], k))
    && Distinct(st.frames[f][i..]) && AllAt(st, st.frames[f][i..], f)
    && (forall a :: st.Live(a) ==> !(f0 <= st.at[a] < f) && (st.at[a] == f ==> a in st.frames[f][i..]))
  }

  ghost predicate Moving(g: Circuit, st0: Store, st: Store, f0: nat, f: nat, i: nat) {
    MovingSets(g, st0, st, f0) && MovingLists(st, f0, f, i)
  }

  ghost predicate AllAt(st: Store, es: seq<int>, k: int) {
    forall m :: 0 <= m < |es| ==> st.Live(es[m]) && st.at[es[m]] == k
  }

  /** After the last frame but one: everything from `f0` on is in the last frame. */
  ghost predicate Moved(g: Circuit, st0: Store, st: Store, f0: nat) {
    && Sized(g, st) && Listed(st) && |st.frames| == |st0.frames| && f0 < |st.frames| - 1
    && (forall s :: FrameHolds(st, f0, s) <==> FrameHolds(st0, f0, s))
    && (forall a :: st.Live(a) ==> !(f0 <= st.at[a] < st.Depth()))
  }

  lemma StartMoving(g: Circuit, st: Store, f0: nat)
    requires Core(g, st) && Listed(st) && Exact(st) && f0 < |st.frames| - 1
    ensures Moving(g, st, st, f0, f0, 0)
  {
    assert st.frames[f0][0..] == st.frames[f0];
    forall k | 0 <= k < |st.frames| ensures AllAt(st, st.frames[k], k) {
      forall m | 0 <= m < |st.frames[k]| ensures st.Live(st.frames[k][m]) && st.at[st.frames[k][m]] == k {
        assert st.frames[k][m] in st.frames[k];
      }
    }
  }

  /** Entries other than `l` keep their place when `l` is moved or released. */
  lemma AllAtOther(st: Store, st': Store, es: seq<int>, k: int, l: int)
    requires AllAt(st, es, k) && l !in es
    requires forall a :: a != l && st.Live(a) ==> st'.Live(a) && st'.at[a] == st.at[a]
    ensures AllAt(st', es, k)
  {
    forall m | 0 <= m < |es| ensures st'.Live(es[m]) && st'.at[es[m]] == k { assert es[m] in es; }
  }

  lemma NotAtAll(st: Store, es: seq<int>, k: int, l: int)
    requires AllAt(st, es, k) && (st.Live(l) ==> st.at[l] != k)
    ensures l !in es
  {
  }

  /** The lists after the head `l` of the rest has left frame `f` for `f'` or for good (-1). */
  lemma HeadLeaves(st: Store, st': Store, f0: nat, f: nat, i: nat)
    requires MovingLists(st, f0, f, i) && i < |st.frames[f]| && |st'.frames| == |st.frames|
    requires forall k :: 0 <= k < |st.frames| - 1 ==> st'.frames[k] == st.frames[k]
    requires forall a :: a != st.frames[f][i] ==> (st'.Live(a) <==> st.Live(a)) && (st.Live(a) ==> st'.at[a] == st.at[a])
    requires var l := st.frames[f][i]; st'.Live(l) ==> st'.at[l] == |st.frames| - 1
    ensures MovingLists(st', f0, f, i + 1)
  {
    var es := st.frames[f];
    var l := es[i];
    var rest := es[i + 1..];
    assert es[i..] == [l] + rest && es[i..][0] == l;
    forall m | 0 <= m < |rest| ensures rest[m] != l { assert es[i..][m + 1] == rest[m]; }
    assert AllAt(st, rest, f) by {
      forall m | 0 <= m < |rest| ensures st.Live(rest[m]) && st.at[rest[m]] == f { assert es[i..][m + 1] == rest[m]; }
    }
    AllAtOther(st, st', rest, f, l);
    forall k | f < k < |st.frames| - 1 ensures AllAt(st', st'.frames[k], k) {
      NotAtAll(st, st.frames[k], k, l);
      AllAtOther(st, st', st.frames[k], k, l);
    }
  }

  lemma MoveOn(g: Circuit, st0: Store, st: Store, f0: nat, f: nat, i: nat)
    requires Moving(g, st0, st, f0, f, i) && i < |st.frames[f]| && !st.subsumed[st.frames[f][i]]
    ensures var l := st.frames[f][i]; var last := |st.frames| - 1;
            Moving(g, st0, MovedTo(st, l, last, st.frames[last := st.frames[last] + [l]]), f0, f, i + 1)
  {
    var l := st.frames[f][i];
    var last := |st.frames| - 1;
    var st' := MovedTo(st, l, last, st.frames[last := st.frames[last] + [l]]);
    assert st.frames[f][i..][0] == l;
    MoveMarks(g, st, l, last, st'.frames);
    forall s ensures FrameHolds(st', f0, s) <==> FrameHolds(st0, f0, s) { MoveFrames(st, l, last, st'.frames, f0, s); }
    forall a | st'.Live(a) && st'.at[a] < |st'.frames| ensures a in st'.frames[st'.at[a]] {
      if a == l { assert st'.frames[last][|st.frames[last]|] == l; } else { assert a in st.frames[st.at[a]]; }
    }
    HeadLeaves(st, st', f0, f, i);
  }

  lemma ReleaseOn(g: Circuit, st0: Store, st: Store, f0: nat, f: nat, i: nat)
    requires Moving(g, st0, st, f0, f, i) && i < |st.frames[f]| && st.subsumed[st.frames[f][i]]
    ensures Moving(g, st0, Released(st, st.frames[f][i], st.frames), f0, f, i + 1)
  {
    var l := st.frames[f][i];
    var st' := Released(st, l, st.frames);
    assert st.frames[f][i..][0] == l;
    ReleaseMarks(g, st, l, st.frames);
    ReleaseSameFrames(g, st, l, st.frames);
    assert forall a :: st'.Live(a) <==> st.Live(a) && a != l;
    HeadLeaves(st, st', f0, f, i);
  }

  /** Clearing an emptied frame and going to the next one. */
  lemma ClearFrame(g: Circuit, st0: Store, st: Store, f0: nat, f: nat)
    requires f < |st.frames| && Moving(g, st0, st, f0, f, |st.frames[f]|)
    ensures var st' := st.(frames := st.frames[f := []]);
            if f + 1 < |st.frames| - 1 then Moving(g, st0, st', f0, f + 1, 0) else Moved(g, st0, st', f0)
  {
    var st' := st.(frames := st.frames[f := []]);
    assert st.frames[f][|st.frames[f]|..] == [];
    assert forall a :: st'.Live(a) <==> st.Live(a);
    forall a | st'.Live(a) && st'.subsumed[a] ensures exists b :: Subsumer(st', a, b) {
      var b :| Subsumer(st, a, b);
      assert Subsumer(st', a, b);
    }
    forall s ensures FrameHolds(st', f0, s) <==> FrameHolds(st0, f0, s) {
      assert FrameHolds(st', f0, s) <==> FrameHolds(st, f0, s);
    }
    if f + 1 < |st.frames| - 1 {
      assert st'.frames[f + 1][0..] == st.frames[f + 1];
      assert AllAt(st, st.frames[f + 1], f + 1);
    }
    forall k | f < k < |st.frames| - 1 ensures AllAt(st', st'.frames[k], k) { assert AllAt(st, st.frames[k], k); }
  }

  lemma MovedToLast(g: Circuit, st0: Store, st: Store, f0: nat, s: State)
    requires Moved(g, st0, st, f0)
    ensures FrameHolds(st, st.Depth(), s) <==> FrameHolds(st0, f0, s)
  {
    assert FrameHolds(st, st.Depth(), s) <==> FrameHolds(st, f0, s) by {
      assert forall a :: st.Live(a) && st.at[a] >= f0 ==> st.at[a] >= st.Depth();
    }
  }
}
