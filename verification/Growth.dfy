/** Why the outer loop of the engine ends: while no frame empties, the frames are strictly increasing state sets. */
module Growth {
  import opened Aigs
  import opened Frames

  function Extend(ss: set<State>, b: bool): set<State> {
    set s | s in ss :: s + [b]
  }

  /** All states over `n` latches (or all inputs over `n` input lines). */
  function AllStates(n: nat): (r: set<State>) {
    if n == 0 then {[]} else Extend(AllStates(n - 1), false) + Extend(AllStates(n - 1), true)
  }

  lemma {:induction false} AllStatesMember(n: nat, s: State)
    ensures s in AllStates(n) <==> |s| == n
  {
    if n > 0 {
      var prev := AllStates(n - 1);
      if |s| == n {
        var r := s[..n - 1];
        AllStatesMember(n - 1, r);
        assert s == r + [s[n - 1]];
        assert s in Extend(prev, s[n - 1]);
      }
      forall r, b | r in prev && s == r + [b] ensures |s| == n {
        AllStatesMember(n - 1, r);
      }
    }
  }

  lemma ExtendInjective(s: State, r: State, b: bool, c: bool)
    ensures s + [b] == r + [c] ==> s == r && b == c
  {
    if s + [b] == r + [c] {
      assert s == (s + [b])[..|s|] && r == (r + [c])[..|r|];
      assert (s + [b])[|s|] == (r + [c])[|r|];
    }
  }

  lemma {:induction false} ExtendSize(ss: set<State>, b: bool)
    ensures |Extend(ss, b)| == |ss|
  {
    if ss != {} {
      var r :| r in ss;
      ExtendSize(ss - {r}, b);
      var rest := Extend(ss - {r}, b);
      assert Extend(ss, b) == rest + {r + [b]};
      if r + [b] in rest {
        var s :| s in ss - {r} && s + [b] == r + [b];
        ExtendInjective(s, r, b, b);
        assert false;
      }
    }
  }

  lemma {:induction false} AllStatesSize(n: nat)
    ensures |AllStates(n)| == Pow2(n)
  {
    if n > 0 {
      var f, t := Extend(AllStates(n - 1), false), Extend(AllStates(n - 1), true);
      AllStatesSize(n - 1);
      ExtendSize(AllStates(n - 1), false);
      ExtendSize(AllStates(n - 1), true);
      forall x | x in f ensures x !in t {
        if x in t {
          var s :| s in AllStates(n - 1) && x == s + [false];
          var r :| r in AllStates(n - 1) && x == r + [true];
          ExtendInjective(s, r, false, true);
          assert false;
        }
      }
      assert f !! t;
    }
  }

  /** The step from frame `i` leaves it: some successor of a state of F_i violates a clause kept in frame i. */
  ghost predicate Grows(g: Circuit, st: Store, i: int) {
    exists s, x :: IsState(g, s) && IsInput(g, x) && FrameHolds(st, i, s) && !FrameHolds(st, i, Next(g, s, x))
  }

  ghost function FrameSet(g: Circuit, st: Store, i: int): set<State> {
    set s | s in AllStates(|g.latches|) && FrameHolds(st, i, s)
  }

  ghost function SomeReset(g: Circuit): (s: State)
    ensures IsReset(g, s)
  {
    ResetAvoiding(g, [])
  }

  /** A growing frame is a proper subset of the next one. */
  lemma GrowsProperly(g: Circuit, st: Store, i: nat, j: nat)
    requires Core(g, st) && Grows(g, st, i) && j == i + 1
    ensures FrameSet(g, st, i) < FrameSet(g, st, j)
  {
    var s, x :| IsState(g, s) && IsInput(g, x) && FrameHolds(st, i, s) && !FrameHolds(st, i, Next(g, s, x));
    var t := Next(g, s, x);
    StepsForward(g, st, i, s, x);
    AllStatesMember(|g.latches|, t);
    assert t in FrameSet(g, st, j) && t !in FrameSet(g, st, i);
  }

  lemma SmallerSubset<T>(a: set<T>, b: set<T>)
    requires a <= b
    ensures |a| <= |b|
  {
    assert b == a + (b - a);
  }

  lemma ProperSubset<T>(a: set<T>, b: set<T>)
    requires a < b
    ensures |a| < |b|
  {
    var t :| t in b && t !in a;
    SmallerSubset(a + {t}, b);
  }

  lemma FirstFrame(g: Circuit, st: Store)
    requires Core(g, st)
    ensures |FrameSet(g, st, 0)| >= 1
  {
    var s := SomeReset(g);
    ResetInFrames(g, st, s);
    AllStatesMember(|g.latches|, s);
    SmallerSubset({s}, FrameSet(g, st, 0));
  }

  lemma {:induction false} FramesIncrease(g: Circuit, st: Store, k: nat)
    requires Core(g, st) && forall i :: 0 <= i < k ==> Grows(g, st, i)
    ensures |FrameSet(g, st, k)| >= k + 1
  {
    hide Core, Grows, FrameSet;
    if k == 0 {
      FirstFrame(g, st);
    } else {
      FramesIncrease(g, st, k - 1);
      GrowsProperly(g, st, k - 1, k);
      ProperSubset(FrameSet(g, st, k - 1), FrameSet(g, st, k));
    }
  }

  /** With strictly increasing frames the depth stays below two to the number of latches. */
  lemma DepthBound(g: Circuit, st: Store)
    requires Core(g, st) && forall i :: 0 <= i < st.Depth() ==> Grows(g, st, i)
    ensures st.Depth() + 1 <= Pow2(|g.latches|)
  {
    FramesIncrease(g, st, st.Depth());
    SmallerSubset(FrameSet(g, st, st.Depth()), AllStates(|g.latches|));
    AllStatesSize(|g.latches|);
  }
}
