/** The simplifying solver: clauses with occurrence lists and the literals fixed on level 0, backward subsumption and
    variable elimination. */
module Simplification {
  import opened Lbools
  import opened Literals
  import opened Elimination
  import opened Subsumption

  /** `r` is `s` without its first entry `x`. */
  ghost predicate TakenOff(s: seq<nat>, r: seq<nat>, x: nat) {
    exists k :: 0 <= k < |s| && s[k] == x && r == s[..k] + s[k + 1..]
  }

  /** The clauses that have not been removed, and the values fixed on level 0. */
  datatype Store = Store(ca: seq<Clause>, dead: seq<bool>, assigns: seq<LB>)
  {
    ghost predicate Live(cr: int) { 0 <= cr < |ca| && cr < |dead| && !dead[cr] }
  }

  ghost predicate Sat(st: Store, m: Model) {
    Agrees(st.assigns, m) && forall cr :: st.Live(cr) ==> SatClause(m, st.ca[cr])
  }

  ghost predicate SameSat(a: Store, b: Store) { forall m :: Sat(a, m) <==> Sat(b, m) }

  ghost predicate NoSat(a: Store) { forall m :: !Sat(a, m) }

  /** Clause `c` holds in every model. */
  ghost predicate Follows(st: Store, c: Clause) { forall m :: Sat(st, m) ==> SatClause(m, c) }

  lemma SameTrans(a: Store, b: Store, c: Store)
    requires SameSat(a, b)
    ensures (SameSat(b, c) ==> SameSat(a, c)) && (NoSat(b) ==> NoSat(a))
  {
  }

  lemma SameRefl(a: Store)
    ensures SameSat(a, a)
  {
  }

  ghost predicate StoreOk(st: Store) {
    |st.dead| == |st.ca| && forall cr :: st.Live(cr) ==> |st.ca[cr]| >= 2 && ClauseOk(|st.assigns|, st.ca[cr])
  }

  ghost predicate Distinct(s: seq<nat>) { forall j, k :: 0 <= j < k < |s| ==> s[j] != s[k] }

  ghost predicate EntryOk(st: Store, v: nat, cr: nat) {
    cr < |st.ca| && (st.Live(cr) ==> Mentions(st.ca[cr], v))
  }

  /** The occurrence lists hold every live clause under each of its variables, and removed clauses until they are
      cleaned. */
  ghost predicate OccursOk(st: Store, occurs: seq<seq<nat>>) {
    && |occurs| == |st.assigns|
    && (forall cr, l :: st.Live(cr) && l in st.ca[cr] && l.v < |occurs| ==> cr in occurs[l.v])
    && (forall v: nat, cr: nat :: v < |occurs| && cr in occurs[v] ==> EntryOk(st, v, cr))
    && forall v :: 0 <= v < |occurs| ==> Distinct(occurs[v])
  }

  /** Eliminated variables have no value and occur in no clause. */
  ghost predicate InUse(st: Store, eliminated: seq<bool>) {
    && |eliminated| == |st.assigns|
    && (forall cr, l :: st.Live(cr) && l in st.ca[cr] && l.v < |eliminated| ==> !eliminated[l.v])
    && forall v :: 0 <= v < |eliminated| && eliminated[v] ==> st.assigns[v] == LUndef
  }

  /** Values on level 0 are never taken back. */
  ghost predicate Kept(a: seq<LB>, b: seq<LB>) {
    |a| == |b| && forall v :: 0 <= v < |a| && a[v] != LUndef ==> b[v] == a[v]
  }

  ghost predicate TrailTrue(assigns: seq<LB>, trail: seq<Lit>) {
    forall l :: l in trail ==> Value(assigns, l) == LTrue
  }

  ghost predicate TouchedIn(c: Clause, touched: seq<bool>) {
    exists l :: l in c && l.v < |touched| && touched[l.v]
  }

  lemma OneMoreTouched(t: seq<bool>, v: nat)
    requires v < |t|
    ensures forall c: Clause :: TouchedIn(c, t[..v + 1]) <==> TouchedIn(c, t[..v]) || (t[v] && Mentions(c, v))
  {
    assert t[..v + 1] == t[..v] + [t[v]];
    forall c: Clause ensures TouchedIn(c, t[..v + 1]) <==> TouchedIn(c, t[..v]) || (t[v] && Mentions(c, v)) {
      if t[v] && Mentions(c, v) {
        var l: Lit :| l in c && l.v == v;
        assert t[..v + 1][l.v];
      }
      if TouchedIn(c, t[..v + 1]) {
        var l: Lit :| l in c && l.v < v + 1 && t[..v + 1][l.v];
        if l.v < v { assert t[..v][l.v]; }
      }
      if TouchedIn(c, t[..v]) {
        var l: Lit :| l in c && l.v < v && t[..v][l.v];
        assert t[..v + 1][l.v];
      }
    }
  }

  ghost predicate OnTrail(assigns: seq<LB>, trail: seq<Lit>) {
    forall v :: 0 <= v < |assigns| && assigns[v] != LUndef ==> exists k :: 0 <= k < |trail| && trail[k].v == v
  }

  /** The values on level 0 make the clause true, or leave two of its literals open. */
  ghost predicate Quiet(assigns: seq<LB>, c: Clause) {
    || (exists l :: l in c && Value(assigns, l) == LTrue)
    || exists k, l :: k in c && l in c && k != l && Value(assigns, k) == LUndef && Value(assigns, l) == LUndef
  }

  ghost predicate SignaturesOk(st: Store, abst: seq<bv32>) {
    |abst| == |st.ca| && forall cr :: st.Live(cr) ==> abst[cr] == Abs(st.ca[cr])
  }

  /** The number of literals in live clauses. */
  ghost function Total(ca: seq<Clause>, dead: seq<bool>): nat
    requires |ca| == |dead|
  {
    if ca == [] then 0
    else
      var n := |ca| - 1;
      Total(ca[..n], dead[..n]) + (if dead[n] then 0 else |ca[n]|)
  }

  lemma {:induction false} TotalReplaced(ca: seq<Clause>, dead: seq<bool>, cr: nat, c: Clause, gone: bool)
    requires |ca| == |dead| && cr < |ca| && !dead[cr]
    ensures Total(ca[cr := c], dead[cr := gone]) == Total(ca, dead) - |ca[cr]| + (if gone then 0 else |c|)
  {
    var n := |ca| - 1;
    if cr == n {
      assert ca[cr := c][..n] == ca[..n] && dead[cr := gone][..n] == dead[..n];
    } else {
      assert ca[cr := c][..n] == ca[..n][cr := c] && dead[cr := gone][..n] == dead[..n][cr := gone];
      TotalReplaced(ca[..n], dead[..n], cr, c, gone);
    }
  }

  function Undefs(assigns: seq<LB>): set<nat> {
    set v | 0 <= v < |assigns| && assigns[v] == LUndef
  }

  lemma AssignLess(assigns: seq<LB>, v: nat, b: LB)
    requires v < |assigns| && assigns[v] == LUndef && b != LUndef
    ensures |Undefs(assigns[v := b])| < |Undefs(assigns)|
  {
    assert Undefs(assigns) == Undefs(assigns[v := b]) + {v};
  }

  // ---------- changes of the store ----------

  /** Fixing a literal on level 0. */
  lemma AssignMeaning(st: Store, l: Lit, m: Model)
    requires l.v < |st.assigns| && st.assigns[l.v] == LUndef
    ensures Sat(st.(assigns := st.assigns[l.v := FromBool(!l.neg)]), m) <==> Sat(st, m) && Makes(m, l)
  {
    var u := st.(assigns := st.assigns[l.v := FromBool(!l.neg)]);
    assert forall cr :: st.Live(cr) <==> u.Live(cr);
    assert u.assigns[l.v] == FromBool(!l.neg);
  }

  lemma AssignSame(st: Store, l: Lit)
    requires l.v < |st.assigns| && st.assigns[l.v] == LUndef && forall m :: Sat(st, m) ==> Makes(m, l)
    ensures SameSat(st, st.(assigns := st.assigns[l.v := FromBool(!l.neg)]))
  {
    hide Sat;
    forall m ensures Sat(st, m) <==> Sat(st.(assigns := st.assigns[l.v := FromBool(!l.neg)]), m) { AssignMeaning(st, l, m); }
  }

  lemma ValueForced(st: Store, l: Lit, m: Model)
    requires Sat(st, m) && l.v < |st.assigns|
    ensures (Value(st.assigns, l) == LTrue ==> Makes(m, l)) && (Value(st.assigns, l) == LFalse ==> !Makes(m, l))
  {
  }

  /** The last literal of a clause that is not false. */
  lemma UnitForced(st: Store, cr: int, l: Lit)
    requires StoreOk(st) && st.Live(cr) && l in st.ca[cr] && forall k :: k in st.ca[cr] && k != l ==> Value(st.assigns, k) == LFalse
    ensures forall m :: Sat(st, m) ==> Makes(m, l)
  {
    forall m | Sat(st, m) ensures Makes(m, l) {
      var k :| k in st.ca[cr] && Makes(m, k);
      var j :| 0 <= j < |st.ca[cr]| && st.ca[cr][j] == k;
      ValueForced(st, k, m);
    }
  }

  lemma FalseClause(st: Store, cr: int)
    requires StoreOk(st) && st.Live(cr) && forall k :: k in st.ca[cr] ==> Value(st.assigns, k) == LFalse
    ensures NoSat(st)
  {
    forall m ensures !Sat(st, m) {
      if Sat(st, m) {
        var k :| k in st.ca[cr] && Makes(m, k);
        var j :| 0 <= j < |st.ca[cr]| && st.ca[cr][j] == k;
        ValueForced(st, k, m);
      }
    }
  }

  lemma RemoveMeaning(st: Store, cr: nat, m: Model)
    requires st.Live(cr)
    ensures Sat(st, m) <==> Sat(st.(dead := st.dead[cr := true]), m) && SatClause(m, st.ca[cr])
  {
    hide SatClause;
    var u := st.(dead := st.dead[cr := true]);
    forall b | b != cr ensures st.Live(b) <==> u.Live(b) {}
  }

  /** A clause that follows from the others may go. */
  lemma RemoveSame(st: Store, cr: nat)
    requires st.Live(cr) && Follows(st.(dead := st.dead[cr := true]), st.ca[cr])
    ensures SameSat(st, st.(dead := st.dead[cr := true]))
  {
    hide Sat, SatClause;
    forall m ensures Sat(st, m) <==> Sat(st.(dead := st.dead[cr := true]), m) { RemoveMeaning(st, cr, m); }
  }

  lemma ReplaceMeaning(st: Store, cr: nat, c: Clause, m: Model)
    requires st.Live(cr)
    ensures Sat(st.(ca := st.ca[cr := c]), m) <==> Sat(st.(dead := st.dead[cr := true]), m) && SatClause(m, c)
  {
    hide SatClause;
    var u, w := st.(ca := st.ca[cr := c]), st.(dead := st.dead[cr := true]);
    assert u.Live(cr) && u.ca[cr] == c;
    forall b | b != cr ensures (u.Live(b) <==> w.Live(b)) && (u.Live(b) ==> u.ca[b] == w.ca[b]) {}
  }

  lemma AppendMeaning(st: Store, c: Clause, m: Model)
    requires |st.dead| == |st.ca|
    ensures Sat(st.(ca := st.ca + [c], dead := st.dead + [false]), m) <==> Sat(st, m) && SatClause(m, c)
  {
    hide SatClause;
    var u := st.(ca := st.ca + [c], dead := st.dead + [false]);
    assert u.Live(|st.ca|) && u.ca[|st.ca|] == c;
    forall b | b != |st.ca| ensures (u.Live(b) <==> st.Live(b)) && (u.Live(b) ==> u.ca[b] == st.ca[b]) {}
  }

  class SimpSolver {
    var ca: seq<Clause>
    var dead: seq<bool>
    var abst: seq<bv32>
    var assigns: seq<LB>
    var trail: seq<Lit>
    var occurs: seq<seq<nat>>
    var frozen: seq<bool>
    var eliminated: seq<bool>
    var elimclauses: seq<nat>
    var model: seq<LB>
    var queue: seq<int>
    var tmpUnit: Lit
    var bwdsubAssigns: nat
    var touched: seq<bool>
    var nTouched: nat
    var ok: bool
    var useSimplification: bool
    var conflict: set<Lit>
    var learnts: seq<Clause>
    const grow: int
    const clauseLim: int
    const subsumptionLim: int
    ghost var record: seq<Clause>
    ghost var orig: seq<Clause>

    ghost function St(): Store
      reads this`ca, this`dead, this`assigns
    {
      Store(ca, dead, assigns)
    }

    ghost function Now(): Moment
      reads this`ca, this`dead, this`assigns, this`eliminated
    {
      Moment(St(), eliminated)
    }

    /** The representation: occurrence lists, signatures, queue entries. */
    ghost predicate Shape()
      reads this`ca, this`dead, this`abst, this`assigns, this`trail, this`occurs, this`eliminated, this`queue, this`tmpUnit,
            this`bwdsubAssigns, this`touched, this`nTouched
    {
      && StoreOk(St()) && OccursOk(St(), occurs) && InUse(St(), eliminated) && SignaturesOk(St(), abst)
      && TrailTrue(assigns, trail) && OnTrail(assigns, trail) && bwdsubAssigns <= |trail|
      && (forall cr :: cr in queue ==> -1 <= cr < |ca|) && (-1 in queue ==> Value(assigns, tmpUnit) == LTrue)
      && (forall l :: l in trail ==> l.v < |assigns|)
      && |touched| == |assigns| && (nTouched == 0 ==> forall v :: 0 <= v < |touched| ==> !touched[v])
    }

    // ---------- values on level 0 ----------

    method Assign(l: Lit)
      requires Shape() && l.v < |assigns| && assigns[l.v] == LUndef && !eliminated[l.v]
      modifies this`assigns, this`trail
      ensures Shape() && Kept(old(assigns), assigns) && |Undefs(assigns)| < |Undefs(old(assigns))|
      ensures trail == old(trail) + [l]
      ensures St() == old(St()).(assigns := old(assigns)[l.v := FromBool(!l.neg)])
    {
      hide ClauseOk, Undefs, Distinct, Mentions, Abs;
      AssignLess(assigns, l.v, FromBool(!l.neg));
      AssignShape(St(), occurs, eliminated, abst, trail, l);
      assigns := assigns[l.v := FromBool(!l.neg)];
      trail := trail + [l];
    }

    /** Makes `l` true; false if it is false already. */
    method Enqueue(l: Lit) returns (r: bool)
      requires Shape() && l.v < |assigns| && !eliminated[l.v]
      modifies this`assigns, this`trail
      ensures Shape() && Kept(old(assigns), assigns) && old(trail) <= trail
      ensures r ==> forall m :: Sat(St(), m) <==> Sat(old(St()), m) && Makes(m, l)
      ensures !r ==> forall m :: Sat(St(), m) ==> !Makes(m, l)
      ensures if r then Value(assigns, l) == LTrue else St() == old(St())
    {
      hide Shape, Sat;
      EliminatedSize();
      ghost var st := St();
      if Value(assigns, l) != LUndef {
        forall m | Sat(st, m)
          ensures Value(assigns, l) == LTrue ==> Makes(m, l)
          ensures Value(assigns, l) == LFalse ==> !Makes(m, l)
        {
          ValueForced(st, l, m);
        }
        return Value(assigns, l) != LFalse;
      }
      Assign(l);
      forall m ensures Sat(St(), m) <==> Sat(st, m) && Makes(m, l) { AssignMeaning(st, l, m); }
      return true;
    }

    lemma EliminatedSize()
      requires Shape()
      ensures |eliminated| == |assigns| == |occurs| && |dead| == |ca| == |abst|
    {
    }

    /** Whether all literals of a clause are false, or all but one that is undefined. */
    method Examine(c: Clause) returns (conflict: bool, unit: bool, l: Lit)
      requires |c| > 0 && ClauseOk(|assigns|, c)
      ensures conflict ==> forall k :: k in c ==> Value(assigns, k) == LFalse
      ensures !conflict && !unit ==> Quiet(assigns, c)
      ensures unit ==> l in c && Value(assigns, l) == LUndef && forall k :: k in c && k != l ==> Value(assigns, k) == LFalse
    {
      conflict, unit, l := true, false, c[0];
      for i := 0 to |c|
        invariant conflict ==> forall k :: k in c[..i] ==> Value(assigns, k) == LFalse
        invariant unit == !conflict && (unit ==> l in c[..i] && Value(assigns, l) == LUndef)
        invariant unit ==> forall k :: k in c[..i] && k != l ==> Value(assigns, k) == LFalse
      {
        assert c[..i + 1] == c[..i] + [c[i]];
        if Value(assigns, c[i]) == LTrue {
          return false, false, l;
        } else if Value(assigns, c[i]) == LUndef {
          if !conflict {
            return false, false, l;
          }
          conflict, unit, l := false, true, c[i];
        }
      }
      assert c[..|c|] == c;
    }

    /** Unit propagation on level 0. */
    method Propagate() returns (r: bool)
      requires Shape()
      modifies this`assigns, this`trail
      ensures Shape() && Kept(old(assigns), assigns) && old(trail) <= trail
      ensures if r then SameSat(old(St()), St()) else NoSat(old(St()))
      ensures r ==> forall cr :: St().Live(cr) ==> Quiet(assigns, ca[cr])
    {
      hide Shape, Sat, SameSat, NoSat, Undefs, Quiet, ClauseOk;
      SameRefl(St());
      var again := true;
      while again
        invariant Shape() && Kept(old(assigns), assigns) && SameSat(old(St()), St()) && old(trail) <= trail
        invariant !again ==> forall cr :: St().Live(cr) ==> Quiet(assigns, ca[cr])
        decreases |Undefs(assigns)|, again
      {
        again := false;
        ghost var before := assigns;
        EliminatedSize();
        for cr := 0 to |ca|
          invariant Shape() && Kept(old(assigns), assigns) && SameSat(old(St()), St()) && |dead| == |ca| && old(trail) <= trail
          invariant if again then |Undefs(assigns)| < |Undefs(before)| else assigns == before
          invariant !again ==> forall b :: 0 <= b < cr && !dead[b] ==> Quiet(assigns, ca[b])
        {
          if !dead[cr] {
            ghost var st := St();
            LiveClause(cr);
            var conflict, unit, l := Examine(ca[cr]);
            if conflict {
              FalseClause(st, cr);
              SameTrans(old(St()), st, st);
              return false;
            }
            if unit {
              LiteralInUse(cr, l);
              UnitForced(st, cr, l);
              AssignSame(st, l);
              Assign(l);
              SameTrans(old(St()), st, St());
              again := true;
            }
          }
        }
      }
      return true;
    }

    lemma LiveClause(cr: nat)
      requires Shape() && St().Live(cr)
      ensures StoreOk(St()) && |ca[cr]| >= 2 && ClauseOk(|assigns|, ca[cr])
    {
    }

    lemma LiteralInUse(cr: nat, l: Lit)
      requires Shape() && St().Live(cr) && l in ca[cr]
      ensures l.v < |assigns| == |eliminated| && !eliminated[l.v]
    {
      var j :| 0 <= j < |ca[cr]| && ca[cr][j] == l;
    }

    // ---------- clauses ----------

    lemma EntriesBound(v: nat)
      requires Shape() && v < |occurs|
      ensures forall cr :: cr in occurs[v] ==> cr < |ca| == |dead|
    {
    }

    method RemoveClause(cr: nat)
      requires Shape() && St().Live(cr)
      modifies this`dead
      ensures Shape() && dead == old(dead)[cr := true]
      ensures Total(ca, dead) < Total(ca, old(dead))
    {
      hide ClauseOk, Distinct, Mentions, Abs, Total;
      TotalReplaced(ca, dead, cr, ca[cr], true);
      assert ca[cr := ca[cr]] == ca;
      RemoveShape(St(), occurs, eliminated, abst, cr);
      dead := dead[cr := true];
    }

    /** The occurrence list of `v`, rid of removed clauses. */
    method Lookup(v: nat)
      requires Shape() && v < |assigns|
      modifies this`occurs
      ensures Shape() && forall cr :: cr in occurs[v] ==> St().Live(cr) && Mentions(ca[cr], v)
    {
      hide ClauseOk, Distinct, Mentions, Abs;
      EntriesBound(v);
      var cs := occurs[v];
      var i, j := 0, 0;
      while i < |cs|
        invariant 0 <= j <= i <= |cs| == |old(occurs)[v]| && occurs == old(occurs) && cs[i..] == occurs[v][i..]
        invariant cs[..j] == Undeleted(occurs[v][..i], dead)
      {
        UndeletedNext(occurs[v], i, dead);
        assert cs[i + 1..] == cs[i..][1..] == occurs[v][i..][1..] == occurs[v][i + 1..];
        assert cs[i] == cs[i..][0] == occurs[v][i] && occurs[v][i] in occurs[v];
        if !dead[cs[i]] {
          cs := cs[j := cs[i]];
          j := j + 1;
        }
        i := i + 1;
      }
      assert occurs[v][..i] == occurs[v];
      CleanShape(St(), occurs, v);
      occurs := occurs[v := cs[..j]];
    }

    method EnqueueQueue(cr: nat)
      requires Shape() && cr < |ca|
      modifies this`queue
      ensures Shape() && queue == old(queue) + [cr]
    {
      queue := queue + [cr];
    }

    /** A clause of two literals is removed, its other literal becomes true. */
    method StrengthenPair(cr: nat, l: Lit) returns (r: bool)
      requires Shape() && St().Live(cr) && l in ca[cr] && |ca[cr]| == 2 && |Without(ca[cr], l)| == 1
      requires forall m :: Sat(St(), m) ==> SatClause(m, Without(ca[cr], l))
      modifies this`ca, this`dead, this`assigns, this`trail
      ensures Shape() && Kept(old(assigns), assigns) && |ca| == |old(ca)| && old(trail) <= trail
      ensures if r then SameSat(old(St()), St()) else NoSat(old(St()))
      ensures r ==> Total(ca, dead) < Total(old(ca), old(dead))
      ensures ca == old(ca) && dead == old(dead)[cr := true]
    {
      hide Shape, Sat, SameSat, NoSat, Total, SatClause;
      ghost var st := St();
      EliminatedSize();
      LiveClause(cr);
      var c := RemoveLit(ca[cr], l, |assigns|);
      WithoutMember(ca[cr], l, c[0]);
      LiteralInUse(cr, c[0]);
      RemoveClause(cr);
      PairMeaning(st, cr, c);
      ghost var mid := St();
      r := Enqueue(c[0]);
      if r {
        ghost var st2 := St();
        PairDone(st, mid, st2, c[0]);
        r := Propagate();
        SameTrans(st, st2, St());
      } else {
        PairNone(st, mid, c[0]);
      }
    }

    /** A longer clause is shortened in place and taken off one occurrence list. */
    method StrengthenLong(cr: nat, l: Lit)
      requires Shape() && St().Live(cr) && l in ca[cr] && |ca[cr]| > 2
      requires |Without(ca[cr], l)| == |ca[cr]| - 1 && ClauseOk(|assigns|, Without(ca[cr], l))
      requires forall m :: Sat(St(), m) ==> SatClause(m, Without(ca[cr], l))
      modifies this`ca, this`abst, this`occurs
      ensures Shape() && |ca| == |old(ca)| && SameSat(old(St()), St())
      ensures Total(ca, dead) < Total(old(ca), dead)
      ensures ca == old(ca)[cr := Without(old(ca)[cr], l)] && OffOneList(old(occurs), occurs, l.v, cr)
    {
      hide Sat, SameSat, NoSat, Total, SatClause, ClauseOk, Distinct, Mentions, Abs, TakenOff;
      ghost var st := St();
      LiteralInUse(cr, l);
      var c := RemoveLit(ca[cr], l, |assigns|);
      var a := CalcAbstraction(c);
      LongMeaning(st, cr, c, l);
      TotalReplaced(ca, dead, cr, c, false);
      assert dead[cr := false] == dead;
      var cs := RemoveOne(occurs[l.v], cr);
      LongShape(st, occurs, eliminated, abst, cr, l, c, cs);
      ca := ca[cr := c];
      abst := abst[cr := a];
      occurs := occurs[l.v := cs];
    }

    /** Takes the first occurrence of an entry out of a list. */
    method RemoveOne(s: seq<nat>, x: nat) returns (r: seq<nat>)
      requires x in s && Distinct(s)
      ensures Distinct(r) && (forall y :: y in r <==> y in s && y != x) && TakenOff(s, r, x)
    {
      var j := 0;
      while s[j] != x
        invariant 0 <= j < |s| && x in s[j..]
        decreases |s| - j
      {
        assert s[j..] == [s[j]] + s[j + 1..];
        j := j + 1;
      }
      r := s[..j] + s[j + 1..];
      assert forall k :: 0 <= k < |r| ==> r[k] == s[if k < j then k else k + 1];
      forall y | y in s && y != x ensures y in r {
        var k :| 0 <= k < |s| && s[k] == y;
        assert r[if k < j then k else k - 1] == y;
      }
    }

    /** Takes literal `l` out of a clause. A clause of two literals becomes a value on level 0. */
    method StrengthenClause(cr: nat, l: Lit) returns (r: bool)
      requires Shape() && St().Live(cr) && l in ca[cr]
      requires forall m :: Sat(St(), m) ==> SatClause(m, Without(ca[cr], l))
      modifies this`ca, this`dead, this`abst, this`assigns, this`trail, this`occurs, this`queue
      ensures Shape() && Kept(old(assigns), assigns) && |ca| == |old(ca)| && old(trail) <= trail && queue == old(queue) + [cr]
      ensures if r then SameSat(old(St()), St()) else NoSat(old(St()))
      ensures r ==> Total(ca, dead) < Total(old(ca), old(dead))
      ensures if |old(ca)[cr]| == 2 then ca == old(ca) && dead == old(dead)[cr := true] && occurs == old(occurs)
              else ca == old(ca)[cr := Without(old(ca)[cr], l)] && dead == old(dead) && OffOneList(old(occurs), occurs, l.v, cr)
    {
      hide Shape, Sat, SameSat, NoSat, Total, Without, OffOneList;
      EliminatedSize();
      ghost var st := St();
      EnqueueQueue(cr);
      LiveClause(cr);
      ShorterClause(st, cr, l);
      if |ca[cr]| == 2 {
        r := StrengthenPair(cr, l);
      } else {
        StrengthenLong(cr, l);
        r := true;
      }
    }

    /** Puts a new clause into the store and on the occurrence lists of its variables. */
    method AttachClause(c: Clause)
      requires Shape() && |c| >= 2 && ClauseOk(|assigns|, c) && forall l :: l in c ==> l.v < |eliminated| && !eliminated[l.v]
      modifies this`ca, this`dead, this`abst, this`occurs, this`queue, this`touched, this`nTouched
      ensures Shape() && ca == old(ca) + [c] && dead == old(dead) + [false] && queue == old(queue) + [|old(ca)|]
    {
      hide ClauseOk, Distinct, Mentions, Abs;
      var cr := |ca|;
      ghost var os, st := occurs, St();
      var a := CalcAbstraction(c);
      EntriesNew(st, os);
      ca, dead, abst := ca + [c], dead + [false], abst + [a];
      queue := queue + [cr];
      for i := 0 to |c|
        invariant Listed(os, occurs, c[..i], cr)
        invariant ca == st.ca + [c] && dead == st.dead + [false]
        invariant abst == old(abst) + [a] && queue == old(queue) + [cr]
        invariant |touched| == |old(touched)| && (nTouched == 0 ==> forall v :: 0 <= v < |touched| ==> !touched[v])
      {
        VarInRange(|assigns|, c, i);
        ListOneMore(os, occurs, c, i, cr, |assigns|);
        occurs := occurs[c[i].v := occurs[c[i].v] + [cr]];
        touched := touched[c[i].v := true];
        nTouched := nTouched + 1;
      }
      assert c[..|c|] == c;
      AttachShape(st, os, occurs, eliminated, old(abst), c, |assigns|);
    }

    /** Adds a clause, simplified by what level 0 decides. */
    method AddSimplified(ps: Clause) returns (r: bool)
      requires Shape() && forall l :: l in ps ==> l.v < |eliminated| && !eliminated[l.v]
      modifies this`ca, this`dead, this`abst, this`assigns, this`trail, this`occurs, this`queue, this`touched, this`nTouched
      ensures Shape() && Kept(old(assigns), assigns) && old(ca) <= ca && old(dead) <= dead
      ensures r ==> forall m :: Sat(St(), m) <==> Sat(old(St()), m) && SatClause(m, ps)
      ensures !r ==> forall m :: Sat(old(St()), m) ==> !SatClause(m, ps)
      ensures AllQueued(|old(ca)|, ca, old(queue), queue)
      ensures OpenClause(old(assigns), ps) ==> r && Joined(old(St()), St(), ps) && trail == old(trail) && queue == old(queue) + [|old(ca)|]
    {
      hide Shape, Sat, SatClause, Sorted, Ascending, SameSat, NoSat, Same, OpenClause, Joined;
      EliminatedSize();
      ghost var st := St();
      var sorted := Sort(ps);
      var satisfied, kept := Filter(assigns, sorted);
      if satisfied {
        AlreadyTrue(st, ps, sorted);
        NotOpen(assigns, ps, sorted);
        return true;
      }
      KeptMeaning(st, ps, sorted, kept, eliminated);
      KeptWhole(st, ps, sorted, kept);
      if kept == [] {
        EmptyFalse();
        return false;
      } else if |kept| == 1 {
        assert kept[0] in kept;
        r := Enqueue(kept[0]);
        SinglesSat(kept);
        if r {
          ghost var mid := St();
          r := Propagate();
          ThenSame(st, mid, St(), kept, r);
        }
      } else {
        AttachClause(kept);
        AppendAll(st, kept);
        r := true;
      }
    }

    // ---------- backward subsumption ----------

    /** The clause to subsume with: clause `cr`, or for a negative `cr` a literal fixed on level 0. */
    ghost predicate Support(cr: int, c: Clause)
      reads this`ca, this`dead, this`assigns
    {
      && |c| > 0 && ClauseOk(|assigns|, c)
      && if cr >= 0 then St().Live(cr) && ca[cr] == c else |c| == 1 && Value(assigns, c[0]) == LTrue
    }

    /** The variable of a clause with the shortest occurrence list. */
    method BestVar(c: Clause) returns (best: nat)
      requires |c| > 0 && forall k :: 0 <= k < |c| ==> c[k].v < |occurs|
      ensures best < |occurs| && (exists k :: 0 <= k < |c| && c[k].v == best)
      ensures forall k :: 0 <= k < |c| ==> |occurs[best]| <= |occurs[c[k].v]|
    {
      best := c[0].v;
      for i := 1 to |c|
        invariant best < |occurs| && (exists k :: 0 <= k < i && c[k].v == best)
        invariant forall k :: 0 <= k < i ==> |occurs[best]| <= |occurs[c[k].v]|
      {
        if |occurs[c[i].v]| < |occurs[best]| {
          best := c[i].v;
        }
      }
    }

    /** Clause `d` is not to be tried, or clause `c` can do nothing to it. */
    ghost predicate Treated(c: Clause, cr: int, d: nat)
      reads this`ca, this`dead
    {
      d < |ca| == |dead| && (d == cr || dead[d] || (subsumptionLim != -1 && |ca[d]| >= subsumptionLim) || NoUse(c, ca[d]))
    }

    /** Tries to remove or to strengthen clause `d` by clause `c`. */
    method TryClause(c: Clause, a: bv32, cr: int, d: nat) returns (r: bool, verdict: Verdict)
      requires Shape() && Support(cr, c) && a == Abs(c) && St().Live(d) && d != cr
      modifies this`ca, this`dead, this`abst, this`assigns, this`trail, this`occurs, this`queue
      ensures Shape() && Kept(old(assigns), assigns) && |ca| == |old(ca)| && old(trail) <= trail
      ensures Shrunk(old(St()), St(), queue) && old(queue) <= queue
      ensures if r then SameSat(old(St()), St()) && Support(cr, c) else NoSat(old(St()))
      ensures r && verdict != Neither ==> Total(ca, dead) < Total(old(ca), old(dead))
      ensures verdict == Neither ==> r && St() == old(St()) && trail == old(trail) && queue == old(queue) && occurs == old(occurs)
      ensures dead[d] || NoUse(c, ca[d])
      ensures forall b :: 0 <= b < |ca| && b != d ==> ca[b] == old(ca)[b] && dead[b] == old(dead)[b]
      ensures occurs == old(occurs) || (verdict.Strengthen? && OffOneList(old(occurs), occurs, verdict.l.v, d))
    {
      hide Shape, Sat, SameSat, NoSat, Total, ClauseOk, Abs, Within, AllBut, Follows, OffOneList, Without, Shrunk;
      EliminatedSize();
      LiveSignature(d);
      ghost var st := St();
      verdict := Subsumes(c, a, ca[d], abst[d], |assigns|);
      match verdict {
        case Subsumed =>
          SupportFollows(st.(dead := st.dead[d := true]), cr, c);
          SubsumedFollows(st, d, c);
          ShrunkRemoved(st, d, queue);
          RemoveClause(d);
          r := true;
        case Strengthen(l) =>
          SupportFollows(st, cr, c);
          LiveClause(d);
          StrengthenFollows(st, c, d, l);
          NoFurther(|assigns|, c, ca[d], l);
          ShorterClause(st, d, Neg(l));
          r := StrengthenClause(d, Neg(l));
          EliminatedSize();
          ShrunkStrengthened(st, St(), d, Neg(l), queue);
        case Neither =>
          SameRefl(st);
          ShrunkRefl(st, queue);
          r := true;
      }
    }

    lemma LiveSignature(d: nat)
      requires Shape() && St().Live(d)
      ensures ClauseOk(|assigns|, ca[d]) && abst[d] == Abs(ca[d])
    {
    }

    /** Goes through the clauses that mention `best`. */
    method ScanCandidates(c: Clause, a: bv32, cr: int, best: nat) returns (r: bool)
      requires Shape() && Support(cr, c) && a == Abs(c) && best < |occurs|
      requires forall d :: d in occurs[best] ==> d < |dead| && !dead[d]
      modifies this`ca, this`dead, this`abst, this`assigns, this`trail, this`occurs, this`queue
      ensures Shape() && Kept(old(assigns), assigns) && |ca| == |old(ca)| && old(trail) <= trail
      ensures Shrunk(old(St()), St(), queue) && old(queue) <= queue
      ensures if r then SameSat(old(St()), St()) else NoSat(old(St()))
      ensures r ==> Total(ca, dead) < Total(old(ca), old(dead)) || (trail == old(trail) && queue == old(queue) && Total(ca, dead) == Total(old(ca), old(dead)))
      ensures r ==> Support(cr, c) && best < |occurs| && forall d :: d in occurs[best] ==> Treated(c, cr, d)
    {
      hide Shape, Sat, SameSat, NoSat, Total, ClauseOk, Abs, Support, Kept, NoUse, OffOneList, Shrunk;
      ghost var st := St();
      ShrunkRefl(st, queue);
      SameRefl(st);
      KeptRefl(assigns);
      EliminatedSize();
      var j := 0;
      while j < |occurs[best]|
        invariant Shape() && Kept(old(assigns), assigns) && |ca| == |old(ca)| && best < |occurs| && |dead| == |ca|
        invariant SameSat(st, St()) && Support(cr, c) && old(trail) <= trail && Shrunk(st, St(), queue) && old(queue) <= queue
        invariant Total(ca, dead) < Total(old(ca), old(dead)) || (trail == old(trail) && queue == old(queue) && Total(ca, dead) == Total(old(ca), old(dead)))
        invariant j <= |occurs[best]| && forall k :: 0 <= k < j ==> Treated(c, cr, occurs[best][k])
        decreases Total(ca, dead), |occurs[best]| - j
      {
        ghost var lists, ds := occurs, occurs[best];
        OccursDistinct(best);
        var d := occurs[best][j];
        EntriesBound(best);
        assert d in occurs[best];
        var again := false;
        if !dead[d] && d != cr && (subsumptionLim == -1 || |ca[d]| < subsumptionLim) {
          ghost var before, q := St(), queue;
          var verdict;
          r, verdict := TryClause(c, a, cr, d);
          KeptTrans(old(assigns), before.assigns, assigns);
          ShrunkTrans(st, before, St(), q, queue);
          SameTrans(st, before, St());
          SameTrans(st, before, before);
          if !r {
            return false;
          }
          EliminatedSize();
          again := verdict.Strengthen? && verdict.l.v == best;
          SamePlaces(lists, occurs, best, j, if verdict.Strengthen? then verdict.l.v else best, d);
        }
        if !again {
          j := j + 1;
        }
      }
      return true;
    }

    /** Subsumes and strengthens with clause `cr`, or with the literal in `tmpUnit`. */
    method SubsumeWith(cr: int) returns (r: bool)
      requires Shape() && -1 <= cr < |ca| && (cr < 0 ==> Value(assigns, tmpUnit) == LTrue)
      modifies this`ca, this`dead, this`abst, this`assigns, this`trail, this`occurs, this`queue
      ensures Shape() && Kept(old(assigns), assigns) && |ca| == |old(ca)| && old(trail) <= trail
      ensures Shrunk(old(St()), St(), queue) && old(queue) <= queue
      ensures if r then SameSat(old(St()), St()) else NoSat(old(St()))
      ensures r ==> Total(ca, dead) < Total(old(ca), old(dead)) || (trail == old(trail) && queue == old(queue) && Total(ca, dead) == Total(old(ca), old(dead)))
      ensures r && (cr < 0 || !old(dead)[cr]) ==> forall d :: St().Live(d) ==> Treated(if cr < 0 then [tmpUnit] else ca[cr], cr, d)
    {
      hide Shape, Sat, SameSat, NoSat, Total, Abs, Kept, Treated, Shrunk;
      EliminatedSize();
      ShrunkRefl(St(), queue);
      KeptRefl(assigns);
      SameRefl(St());
      if cr >= 0 && dead[cr] {
        return true;
      }
      var c, a;
      if cr < 0 {
        c := [tmpUnit];
        a := CalcAbstraction(c);
      } else {
        c, a := ca[cr], abst[cr];
        LiveClause(cr);
        LiveSignature(cr);
      }
      var best := BestVar(c);
      Lookup(best);
      EliminatedSize();
      r := ScanCandidates(c, a, cr, best);
      if r {
        forall d | St().Live(d) ensures Treated(c, cr, d) { UnlistedTreated(c, cr, best, d); }
      }
    }

    /** A clause without a variable of `c` is out of reach for it. */
    lemma UnlistedTreated(c: Clause, cr: int, best: nat, d: nat)
      requires Shape() && St().Live(d) && best < |occurs| && (exists k :: 0 <= k < |c| && c[k].v == best)
      requires forall e :: e in occurs[best] ==> Treated(c, cr, e)
      ensures Treated(c, cr, d)
    {
      EliminatedSize();
      if !NoUse(c, ca[d]) {
        SharesVar(c, ca[d], best);
        UnderVar(d, best);
      }
    }

    lemma NowExhausted(start: seq<Clause>, before: Store, first: seq<int>, q: seq<int>, c: Clause, cr: int)
      requires WorkedOff(start, before, subsumptionLim, first, q) && Shrunk(before, St(), queue)
      requires forall d :: St().Live(d) ==> Treated(c, cr, d)
      ensures Exhausted(start, St(), subsumptionLim, c, cr)
    {
      hide NoUse, Within;
    }

    /** One entry `cr` of the queue has been taken out and exhausted. */
    lemma OneWorkedOff(start: seq<Clause>, before: Store, first: seq<int>, q: seq<int>, cr: int,
                       known: seq<Lit>, from: nat, to: nat)
      requires WorkedOff(start, before, subsumptionLim, first, q) && to <= |known|
      requires UnitsWorkedOff(start, before, subsumptionLim, known, from, to) && known <= trail
      requires bwdsubAssigns == to || (bwdsubAssigns == to + 1 <= |trail| && cr < 0 && tmpUnit == trail[to])
      requires Shrunk(before, St(), queue) && (forall x :: x in q ==> x == cr || x in queue) && -1 <= cr < |ca|
      requires before.Live(cr) ==> forall d :: St().Live(d) ==> Treated(ca[cr], cr, d)
      requires cr < 0 ==> forall d :: St().Live(d) ==> Treated([tmpUnit], cr, d)
      ensures WorkedOff(start, St(), subsumptionLim, first, queue)
      ensures UnitsWorkedOff(start, St(), subsumptionLim, trail, from, bwdsubAssigns)
    {
      hide WorkedOff, Shrunk, Exhausted, Treated;
      ShrunkLive(before, St(), queue, cr);
      if cr < 0 {
        NowExhausted(start, before, first, q, [tmpUnit], -1);
      } else if St().Live(cr) {
        NowExhausted(start, before, first, q, ca[cr], cr);
      }
      WorkedOffStep(start, before, St(), subsumptionLim, first, q, queue, cr);
      UnitsStay(start, before, St(), subsumptionLim, queue, known, trail, from, to);
    }

    /** Works off the queue of clauses that may subsume others, and the values that have become fixed. */
    method BackwardSubsumptionCheck() returns (r: bool)
      requires Shape()
      modifies this`ca, this`dead, this`abst, this`assigns, this`trail, this`occurs, this`queue, this`tmpUnit, this`bwdsubAssigns
      ensures Shape() && Kept(old(assigns), assigns) && |ca| == |old(ca)|
      ensures if r then SameSat(old(St()), St()) else NoSat(old(St()))
      ensures r ==> queue == [] && bwdsubAssigns == |trail| && old(trail) <= trail
      ensures r ==> forall cr :: St().Live(cr) ==> ca[cr] == old(ca)[cr] || |ca[cr]| < |old(ca)[cr]|
      ensures r ==> forall cr :: St().Live(cr) && (cr in old(queue) || ca[cr] != old(ca)[cr]) ==>
                      Exhausted(old(ca), St(), subsumptionLim, ca[cr], cr)
      ensures r ==> forall k :: old(bwdsubAssigns) <= k < |trail| ==>
                      Exhausted(old(ca), St(), subsumptionLim, [trail[k]], -1)
    {
      hide Sat, SameSat, NoSat, Total, Abs, Kept, StoreOk, OccursOk, InUse, SignaturesOk, Shrunk, Exhausted, WorkedOff,
           UnitsWorkedOff, Treated;
      ghost var st := St();
      WorkedOffStart(st, subsumptionLim, queue, trail, bwdsubAssigns);
      SameRefl(st);
      KeptRefl(assigns);
      EliminatedSize();
      while queue != [] || bwdsubAssigns < |trail|
        invariant Shape() && Kept(old(assigns), assigns) && |ca| == |old(ca)| && SameSat(st, St()) && |dead| == |ca|
        invariant old(trail) <= trail && old(bwdsubAssigns) <= bwdsubAssigns
        invariant WorkedOff(st.ca, St(), subsumptionLim, old(queue), queue)
        invariant UnitsWorkedOff(st.ca, St(), subsumptionLim, trail, old(bwdsubAssigns), bwdsubAssigns)
        decreases Total(ca, dead), |trail| - bwdsubAssigns, |queue|
      {
        ghost var before, q, known, to := St(), queue, trail, bwdsubAssigns;
        if queue == [] {
          var l := trail[bwdsubAssigns];
          assert l in trail;
          tmpUnit := l;
          bwdsubAssigns := bwdsubAssigns + 1;
          queue := [-1];
        }
        var cr := queue[0];
        assert cr in queue && forall x :: x in queue[1..] ==> x in queue;
        queue := queue[1..];
        r := SubsumeWith(cr);
        EliminatedSize();
        KeptTrans(old(assigns), before.assigns, assigns);
        SameTrans(st, before, St());
        SameTrans(st, before, before);
        if !r {
          return false;
        }
        HeadOrTail(q, cr, queue);
        OneWorkedOff(st.ca, before, old(queue), q, cr, known, old(bwdsubAssigns), to);
      }
      WorkedOffEnd(st.ca, St(), subsumptionLim, old(queue));
      UnitsEnd(st.ca, St(), subsumptionLim, trail, old(bwdsubAssigns));
      return true;
    }

    // ---------- variable elimination ----------

    /** `cs` are different live clauses that contain `x`. */
    ghost predicate OneSide(cs: seq<nat>, x: Lit)
      reads this`ca, this`dead, this`assigns
    {
      Distinct(cs) && forall k :: 0 <= k < |cs| ==> St().Live(cs[k]) && x in ca[cs[k]]
    }

    /** All live clauses on `v`, split by sign. */
    ghost predicate BothSides(pos: seq<nat>, neg: seq<nat>, v: nat)
      reads this`ca, this`dead, this`assigns
    {
      && OneSide(pos, Lit(v, false)) && OneSide(neg, Lit(v, true))
      && forall cr :: St().Live(cr) && Mentions(ca[cr], v) ==> cr in pos || cr in neg
    }

    method Split(v: nat) returns (pos: seq<nat>, neg: seq<nat>)
      requires Shape() && v < |occurs| && forall cr :: cr in occurs[v] ==> St().Live(cr) && Mentions(ca[cr], v)
      ensures BothSides(pos, neg, v) && |pos| + |neg| == |occurs[v]|
    {
      hide StoreOk, InUse, SignaturesOk, Mentions, Parted;
      EntriesBound(v);
      pos, neg := [], [];
      var occ := occurs[v];
      NothingParted(ca, v);
      for i := 0 to |occ|
        invariant |pos| + |neg| == i && Parted(ca, occ[..i], pos, neg, v)
      {
        var cr := occ[i];
        assert cr in occ && occ[..i + 1] == occ[..i] + [cr] && cr !in occ[..i];
        EitherSign(ca[cr], v);
        OneParted(ca, occ[..i], pos, neg, v, cr);
        if Lit(v, false) in ca[cr] {
          pos := pos + [cr];
        } else {
          neg := neg + [cr];
        }
      }
      assert occ[..|occ|] == occ;
      SidesParted(ca, occ, pos, neg, v);
      forall cr | St().Live(cr) && Mentions(ca[cr], v) ensures cr in pos || cr in neg { UnderVar(cr, v); }
    }

    lemma UnderVar(cr: int, v: nat)
      requires Shape() && v < |occurs| && St().Live(cr) && Mentions(ca[cr], v)
      ensures cr in occurs[v]
    {
      var l :| l in ca[cr] && l.v == v;
    }

    /** Whether the resolvents stay within the limits on their number and length. */
    method WithinLimits(pos: seq<nat>, neg: seq<nat>, v: nat) returns (r: bool)
      requires Shape() && BothSides(pos, neg, v)
      ensures r <==> Bounded(ClausesOf(ca, pos), ClausesOf(ca, neg), v, |pos| + |neg| + grow, clauseLim)
    {
      hide Shape, Resolvent, Tautology, ClauseOk, Mentions, ShortUpTo, Bounded, Pairs, BothSides;
      SidesOk(pos, neg, v);
      ghost var ps, qs := ClausesOf(ca, pos), ClausesOf(ca, neg);
      var cnt := 0;
      NoPairs(ps, qs, v, clauseLim);
      for i := 0 to |pos|
        invariant cnt == Pairs(ps, qs, v, i, 0) && (cnt > 0 ==> cnt <= |pos| + |neg| + grow)
        invariant clauseLim != -1 ==> ShortUpTo(ps, qs, v, i, 0, clauseLim)
      {
        for j := 0 to |neg|
          invariant cnt == Pairs(ps, qs, v, i, j) && (cnt > 0 ==> cnt <= |pos| + |neg| + grow)
          invariant clauseLim != -1 ==> ShortUpTo(ps, qs, v, i, j, clauseLim)
        {
          assert ps[i] == ca[pos[i]] && qs[j] == ca[neg[j]];
          var nontrivial, size := MergeSize(ca[pos[i]], ca[neg[j]], v, |assigns|);
          NextPair(ps, qs, v, i, j, clauseLim);
          if nontrivial {
            cnt := cnt + 1;
            if cnt > |pos| + |neg| + grow || (clauseLim != -1 && size > clauseLim) {
              OutOfBounds(ps, qs, v, i, j, |pos| + |neg| + grow, clauseLim);
              return false;
            }
          }
        }
        PairRow(ps, qs, v, i, clauseLim);
      }
      AllPairs(ps, qs, v, |pos| + |neg| + grow, clauseLim);
      return true;
    }

    lemma SidesOk(pos: seq<nat>, neg: seq<nat>, v: nat)
      requires Shape() && BothSides(pos, neg, v)
      ensures forall k :: 0 <= k < |pos| ==> pos[k] < |ca| && ClauseOk(|assigns|, ca[pos[k]]) && Mentions(ca[pos[k]], v)
      ensures forall k :: 0 <= k < |neg| ==> neg[k] < |ca| && ClauseOk(|assigns|, ca[neg[k]]) && Mentions(ca[neg[k]], v)
    {
    }

    /** Records a clause with its literal `y` in front. */
    method MkElimClause(c: Clause, v: nat, ghost y: Lit) returns (ghost f: Clause)
      requires ClauseOk(|assigns|, c) && y in c && y.v == v && elimclauses == Flatten(record)
      modifies this`elimclauses, this`record
      ensures record == old(record) + [f] && elimclauses == Flatten(record)
      ensures Same(f, c) && f != [] && f[0] == y && forall l: Lit :: l in f[1..] ==> l.v != y.v && l in c
    {
      var first, vPos := |elimclauses|, -1;
      ghost var es := elimclauses;
      for i := 0 to |c|
        invariant elimclauses == es + Ints(c[..i]) && record == old(record)
        invariant if vPos < 0 then forall k :: 0 <= k < i ==> c[k].v != v else first <= vPos < first + i && c[vPos - first].v == v
      {
        IntsNext(c, i);
        elimclauses := elimclauses + [ToInt(c[i])];
        if c[i].v == v {
          vPos := i + first;
        }
      }
      assert c[..|c|] == c;
      var at := FrontPlace(|assigns|, c, y, vPos - first);
      f := Swap(c, 0, at);
      FrontOk(|assigns|, c, at, y);
      IntsSwap(es, c, at);
      var tmp := elimclauses[vPos];
      elimclauses := elimclauses[vPos := elimclauses[first]];
      elimclauses := elimclauses[first := tmp];
      elimclauses := elimclauses + [|c|];
      FlattenAppend(record, f);
      record := record + [f];
    }

    /** Records a literal by itself. */
    method MkElimUnit(x: Lit)
      requires elimclauses == Flatten(record)
      modifies this`elimclauses, this`record
      ensures record == old(record) + [[x]] && elimclauses == Flatten(record)
    {
      elimclauses := elimclauses + [ToInt(x)];
      elimclauses := elimclauses + [1];
      FlattenAppend(record, [x]);
      record := record + [[x]];
    }

    /** Records the clauses of one side, and the literal that satisfies the other. */
    method RecordSide(side: seq<nat>, v: nat, y: Lit) returns (ghost fs: seq<Clause>)
      requires Shape() && OneSide(side, y) && y.v == v && elimclauses == Flatten(record)
      modifies this`elimclauses, this`record
      ensures elimclauses == Flatten(record) && record == old(record) + Group(fs, y) && Recorded(fs, ClausesOf(ca, side), y)
      ensures forall f: Clause, l: Lit :: f in fs && l in f[1..] ==> exists c: Clause :: c in ClausesOf(ca, side) && l in c
    {
      hide Shape, Flatten, ClauseOk, Same;
      fs := [];
      for i := 0 to |side|
        invariant elimclauses == Flatten(record) && record == old(record) + fs && |fs| == i && Fronts(fs, y)
        invariant forall k :: 0 <= k < i ==> Same(fs[k], ca[side[k]])
        invariant forall f: Clause, l: Lit :: f in fs && l in f[1..] ==> exists c: Clause :: c in ClausesOf(ca, side) && l in c
      {
        LiveClause(side[i]);
        LiveSignature(side[i]);
        ghost var f := MkElimClause(ca[side[i]], v, y);
        assert ClausesOf(ca, side)[i] == ca[side[i]] && ca[side[i]] in ClausesOf(ca, side);
        fs := fs + [f];
      }
      MkElimUnit(Neg(y));
    }

    /** Removes all clauses of a list. */
    method RemoveAll(cs: seq<nat>)
      requires Shape() && Distinct(cs) && forall k :: 0 <= k < |cs| ==> St().Live(cs[k])
      modifies this`dead
      ensures Shape() && |dead| == |old(dead)| && forall b :: 0 <= b < |dead| ==> dead[b] == (old(dead)[b] || b in cs)
      ensures forall m :: Sat(old(St()), m) <==> Sat(St(), m) && SatAll(ClausesOf(ca, cs), m)
    {
      hide Shape, Sat, SatClause;
      EliminatedSize();
      ghost var st := St();
      for i := 0 to |cs|
        invariant Shape() && |dead| == |old(dead)| && forall b :: 0 <= b < |dead| ==> dead[b] == (old(dead)[b] || b in cs[..i])
        invariant forall m :: Sat(st, m) <==> Sat(St(), m) && SatAll(ClausesOf(ca, cs)[..i], m)
      {
        ghost var before := St();
        assert cs[..i + 1] == cs[..i] + [cs[i]] && cs[i] !in cs[..i];
        RemoveClause(cs[i]);
        assert ClausesOf(ca, cs)[..i + 1] == ClausesOf(ca, cs)[..i] + [ca[cs[i]]];
        forall m ensures Sat(st, m) <==> Sat(St(), m) && SatAll(ClausesOf(ca, cs)[..i + 1], m) {
          RemoveMeaning(before, cs[i], m);
          SatAllOneMore(ClausesOf(ca, cs)[..i], ca[cs[i]], m);
        }
      }
      assert ClausesOf(ca, cs)[..|cs|] == ClausesOf(ca, cs);
      assert cs[..|cs|] == cs;
    }

    /** Adds every resolvent that is not a tautology. */
    method AddResolvents(pos: seq<nat>, neg: seq<nat>, v: nat, ghost ps: seq<Clause>, ghost qs: seq<Clause>) returns (r: bool)
      requires Shape() && Parents(pos, ps, v) && Parents(neg, qs, v)
      modifies this`ca, this`dead, this`abst, this`assigns, this`trail, this`occurs, this`queue, this`touched, this`nTouched
      ensures Shape() && Kept(old(assigns), assigns) && old(ca) <= ca && AllQueued(|old(ca)|, ca, old(queue), queue)
      ensures r ==> forall m :: Sat(St(), m) <==> Sat(old(St()), m) && ResolventsSat(ps, qs, v, |ps|, 0, m)
      ensures !r ==> forall m :: Sat(old(St()), m) ==> !ResolventsSat(ps, qs, v, |ps|, 0, m)
    {
      hide Shape, Sat, SatClause, Resolvent, Tautology, ResolventsSat, Kept, ParentOk, AllQueued;
      NothingQueued(ca, queue);
      ghost var st := St();
      KeptRefl(assigns);
      NoResolvents(ps, qs, v);
      for i := 0 to |pos|
        invariant Shape() && Kept(old(assigns), assigns) && st.ca <= ca && AllQueued(|st.ca|, ca, old(queue), queue)
        invariant forall m :: Sat(St(), m) <==> Sat(st, m) && ResolventsSat(ps, qs, v, i, 0, m)
      {
        for j := 0 to |neg|
          invariant Shape() && Kept(old(assigns), assigns) && st.ca <= ca && AllQueued(|st.ca|, ca, old(queue), queue)
          invariant forall m :: Sat(St(), m) <==> Sat(st, m) && ResolventsSat(ps, qs, v, i, j, m)
        {
          ghost var before := St();
          ParentClause(pos, ps, v, i, st.ca, ca);
          ParentClause(neg, qs, v, j, st.ca, ca);
          EliminatedSize();
          ResolventInUse(ps[i], qs[j], v, eliminated);
          var nontrivial, resolvent := Merge(ca[pos[i]], ca[neg[j]], v, |assigns|);
          OneResolvent(ps, qs, v, i, j, nontrivial);
          if nontrivial {
            ghost var q := queue;
            var ok := AddSimplified(resolvent);
            QueuedOn(|st.ca|, before.ca, ca, old(queue), q, queue);
            KeptTrans(old(assigns), before.assigns, assigns);
            if !ok {
              NeverAll(ps, qs, v, i, j);
              return false;
            }
          }
        }
        NextRow(ps, qs, v, i);
      }
      return true;
    }

    /** `ps` are the clauses at `cs`; none of their variables but `v` is eliminated. */
    ghost predicate Parents(cs: seq<nat>, ps: seq<Clause>, v: nat)
      reads this`ca, this`eliminated
    {
      |ps| == |cs| && forall k :: 0 <= k < |cs| ==> cs[k] < |ca| && ps[k] == ca[cs[k]] && ParentOk(ps[k], v, eliminated)
    }

    /** The invariant: the store has the models of the clauses added so far, up to the eliminated variables. */
    ghost predicate Inv()
      reads this
    {
      && Shape() && |frozen| == |eliminated| && RecordOk(record, elimclauses, eliminated)
      && Preserves(orig, record, St()) && forall c: Clause, l: Lit :: c in orig && l in c ==> l.v < |assigns|
    }

    /** Variable `v` counts as eliminated once no clause mentions it. */
    method MarkEliminated(v: nat)
      requires Shape() && v < |eliminated| && assigns[v] == LUndef && forall cr :: St().Live(cr) ==> !Mentions(ca[cr], v)
      modifies this`eliminated
      ensures Shape() && eliminated == old(eliminated)[v := true]
    {
      hide StoreOk, OccursOk, SignaturesOk;
      MarkInUse(St(), eliminated, v);
      eliminated := eliminated[v := true];
    }

    method ClearOccurs(v: nat)
      requires Shape() && v < |occurs| && eliminated[v]
      modifies this`occurs
      ensures Shape()
    {
      hide StoreOk, SignaturesOk, Mentions;
      occurs := occurs[v := []];
    }

    /** Records one side and removes all clauses on `v`. */
    method TakeOut(v: nat, pos: seq<nat>, neg: seq<nat>, ghost ps: seq<Clause>, ghost qs: seq<Clause>)
      returns (ghost fs: seq<Clause>, y: Lit)
      requires Shape() && v < |assigns| && assigns[v] == LUndef && !eliminated[v] && elimclauses == Flatten(record)
      requires BothSides(pos, neg, v) && ps == ClausesOf(ca, pos) && qs == ClausesOf(ca, neg)
      requires forall cr :: cr in occurs[v] ==> St().Live(cr) && Mentions(ca[cr], v)
      modifies this`elimclauses, this`record, this`dead, this`eliminated
      ensures Shape() && eliminated == old(eliminated)[v := true] && elimclauses == Flatten(record)
      ensures record == old(record) + Group(fs, y) && y.v == v
      ensures if y.neg then Recorded(fs, qs, y) else Recorded(fs, ps, y)
      ensures ShorterGroup(fs, y, ps, qs, v)
      ensures forall f: Clause, l: Lit :: f in fs && l in f[1..] ==> exists c: Clause :: c in ps + qs && l in c
      ensures forall m :: Sat(old(St()), m) <==> Sat(St(), m) && SatAll(ps, m) && SatAll(qs, m)
    {
      hide Shape, Sat, SatClause, Mentions, Flatten, Same;
      EliminatedSize();
      EntriesBound(v);
      ghost var st := St();
      if |pos| > |neg| {
        y := Lit(v, true);
        fs := RecordSide(neg, v, y);
      } else {
        y := Lit(v, false);
        fs := RecordSide(pos, v, y);
      }
      var cls := occurs[v];
      OccursDistinct(v);
      assert forall k :: 0 <= k < |cls| ==> cls[k] in cls;
      SameClauses(pos, neg, v, cls);
      RemoveAll(cls);
      AllRemoved(st, St(), pos, neg, v, cls);
      MarkEliminated(v);
    }

    lemma OccursDistinct(v: nat)
      requires Shape() && v < |occurs|
      ensures Distinct(occurs[v])
    {
    }

    lemma SameClauses(pos: seq<nat>, neg: seq<nat>, v: nat, cls: seq<nat>)
      requires Shape() && BothSides(pos, neg, v) && v < |occurs| && cls == occurs[v]
      requires forall k :: 0 <= k < |cls| ==> cls[k] < |ca|
      requires forall cr :: cr in cls ==> St().Live(cr) && Mentions(ca[cr], v)
      ensures forall cr :: cr in cls <==> cr in pos || cr in neg
      ensures forall m :: SatAll(ClausesOf(ca, cls), m) <==> SatAll(ClausesOf(ca, pos), m) && SatAll(ClausesOf(ca, neg), m)
    {
      hide Shape;
      EntriesBound(v);
      forall cr | cr in pos || cr in neg ensures cr in cls { UnderVar(cr, v); }
      SameLists(ca, cls, pos, neg);
    }

    lemma SidesMeaning(pos: seq<nat>, neg: seq<nat>, v: nat, ps: seq<Clause>, qs: seq<Clause>)
      requires Shape() && BothSides(pos, neg, v) && (forall k :: 0 <= k < |pos| ==> pos[k] < |ca|)
      requires (forall k :: 0 <= k < |neg| ==> neg[k] < |ca|) && ps == ClausesOf(ca, pos) && qs == ClausesOf(ca, neg)
      ensures Side(ps, Lit(v, false)) && Side(qs, Lit(v, true))
      ensures forall p: Clause :: p in ps + qs ==> ClauseOk(|eliminated|, p) && forall l: Lit :: l in p ==> l.v in UsedVars(eliminated)
    {
      hide OccursOk, SignaturesOk;
      forall p: Clause | p in ps + qs
        ensures ClauseOk(|eliminated|, p) && forall l: Lit :: l in p ==> l.v in UsedVars(eliminated)
      {
        if p in ps { ClauseIn(ca, pos, p); } else { ClauseIn(ca, neg, p); }
        forall l | l in p ensures l.v in UsedVars(eliminated) { var j :| 0 <= j < |p| && p[j] == l; }
      }
      forall p | p in ps ensures Lit(v, false) in p && forall l: Lit :: l in p && l.v == v ==> l == Lit(v, false) {
        ClauseIn(ca, pos, p);
        assert p in ps + qs;
        OneSign(|eliminated|, p, Lit(v, false));
      }
      forall p | p in qs ensures Lit(v, true) in p && forall l: Lit :: l in p && l.v == v ==> l == Lit(v, true) {
        ClauseIn(ca, neg, p);
        assert p in ps + qs;
        OneSign(|eliminated|, p, Lit(v, true));
      }
    }

    lemma ParentsHere(pos: seq<nat>, neg: seq<nat>, v: nat, ps: seq<Clause>, qs: seq<Clause>, used: seq<bool>)
      requires (forall k :: 0 <= k < |pos| ==> pos[k] < |ca|) && forall k :: 0 <= k < |neg| ==> neg[k] < |ca|
      requires ps == ClausesOf(ca, pos) && qs == ClausesOf(ca, neg) && v < |used| && eliminated == used[v := true]
      requires forall p: Clause :: p in ps + qs ==> ClauseOk(|used|, p) && forall l: Lit :: l in p ==> l.v in UsedVars(used)
      ensures Parents(pos, ps, v) && Parents(neg, qs, v)
    {
      hide ClauseOk;
      forall k | 0 <= k < |pos| ensures ParentOk(ps[k], v, eliminated) { assert ps[k] in ps + qs; }
      forall k | 0 <= k < |neg| ensures ParentOk(qs[k], v, eliminated) { assert qs[k] in ps + qs; }
    }

    lemma UntouchedHere(v: nat)
      requires Shape() && v < |eliminated| && eliminated[v]
      ensures Untouched(St(), v)
    {
    }

    /** Replaces the clauses of both sides by their resolvents. */
    method ReplaceByResolvents(v: nat, pos: seq<nat>, neg: seq<nat>) returns (r: bool)
      requires Inv() && v < |assigns| && !eliminated[v] && assigns[v] == LUndef && BothSides(pos, neg, v)
      requires forall cr :: cr in occurs[v] ==> St().Live(cr) && Mentions(ca[cr], v)
      modifies this`ca, this`dead, this`abst, this`assigns, this`trail, this`occurs, this`queue, this`touched, this`nTouched, this`eliminated,
               this`elimclauses, this`record
      ensures |assigns| == |old(assigns)| && |eliminated| == |old(eliminated)|
      ensures r ==> Inv() && Kept(old(assigns), assigns) && eliminated == old(eliminated)[v := true]
      ensures !r ==> forall m :: !SatAll(orig, m)
      ensures ShorterRecorded(old(record), record, ClausesOf(old(ca), pos), ClausesOf(old(ca), neg), v)
      ensures old(ca) <= ca && AllQueued(|old(ca)|, ca, old(queue), queue)
    {
      hide Shape, Sat, SatAll, Mentions, Flatten, RecordOk, Preserves, SameSat, NoSat, Kept, Resolvent, ResolventsSat, Group;
      hide Parents, Recorded, Side, Untouched, BothSides, ShorterGroup;
      EliminatedSize();
      SidesOk(pos, neg, v);
      ghost var st, ps, qs, before, used := St(), ClausesOf(ca, pos), ClausesOf(ca, neg), record, eliminated;
      RecordFlat(record, elimclauses, eliminated);
      SidesMeaning(pos, neg, v, ps, qs);
      var fs, y := TakeOut(v, pos, neg, ps, qs);
      RecordedFronts(fs, y, ps, qs);
      ghost var removed := St();
      ParentsHere(pos, neg, v, ps, qs, used);
      RecordGrows(before, record, elimclauses, used, fs, y, v, ps, qs);
      UntouchedHere(v);
      r := AddResolvents(pos, neg, v, ps, qs);
      EliminatedSize();
      if r {
        Replaced(orig, before, st, removed, St(), ps, qs, fs, y, v);
        ClearOccurs(v);
        KeptSize(old(assigns), assigns);
      } else {
        NoOriginal(orig, before, st, removed, ps, qs, v);
      }
    }

    lemma MeasuredHere(v: nat, pos: seq<nat>, neg: seq<nat>, within: bool)
      requires BothSides(pos, neg, v)
      requires Bounded(ClausesOf(ca, pos), ClausesOf(ca, neg), v, |pos| + |neg| + grow, clauseLim) <==> within
      ensures Fits(St(), v, grow, clauseLim, within)
    {
      hide Bounded, Mentions;
      assert Measured(St(), v, pos, neg, grow, clauseLim, within);
    }

    /** Replaces all clauses on `v` by their resolvents, unless there would be too many or too long ones. */
    method EliminateVar(v: nat) returns (r: bool)
      requires Inv() && v < |assigns| && !frozen[v] && !eliminated[v] && assigns[v] == LUndef
      modifies this`ca, this`dead, this`abst, this`assigns, this`trail, this`occurs, this`queue, this`touched, this`nTouched, this`tmpUnit,
               this`bwdsubAssigns, this`eliminated, this`elimclauses, this`record
      ensures |assigns| == |old(assigns)| && |eliminated| == |old(eliminated)|
      ensures r ==> Inv() && Kept(old(assigns), assigns)
      ensures !r ==> forall m :: !SatAll(orig, m)
      ensures r ==> eliminated == old(eliminated)[v := true] || (eliminated == old(eliminated) && St() == old(St()) && record == old(record))
      ensures r ==> VarTried(old(Now()), Now(), v, grow, clauseLim)
      ensures r && eliminated[v] ==> queue == [] && bwdsubAssigns == |trail|
      ensures r && eliminated[v] ==> UsedUp(old(ca), old(queue), St(), subsumptionLim)
      ensures r && eliminated[v] ==>
        exists pos, neg :: old(BothSides(pos, neg, v)) && ShorterRecorded(old(record), record, ClausesOf(old(ca), pos), ClausesOf(old(ca), neg), v)
    {
      hide Shape, Sat, SatAll, Mentions, Flatten, RecordOk, Preserves, SameSat, NoSat, Kept, Resolvent, Bounded, BothSides, ShorterRecorded, Fits;
      KeptRefl(assigns);
      EliminatedSize();
      Lookup(v);
      EliminatedSize();
      var pos, neg := Split(v);
      var within := WithinLimits(pos, neg, v);
      MeasuredHere(v, pos, neg, within);
      if !within {
        return true;
      }
      r := ReplaceByResolvents(v, pos, neg);
      if r {
        ghost var added, q := St(), queue;
        r := BackwardSubsumptionCheck();
        KeptTrans(old(assigns), added.assigns, assigns);
        KeptSize(added.assigns, assigns);
        StillPreserved(orig, record, added, St(), r);
        if r { NewSubsumed(old(ca), added.ca, old(queue), q, St(), subsumptionLim); }
      }
    }

    /** Queues the clauses with a variable that has been touched by a new clause, unless they are queued already. */
    method GatherTouchedClauses()
      requires Shape()
      modifies this`queue, this`occurs, this`touched, this`nTouched
      ensures Shape() && old(queue) <= queue && |touched| == |old(touched)| && forall v :: 0 <= v < |touched| ==> !touched[v]
      ensures forall cr :: cr in queue <==> cr in old(queue) || (St().Live(cr) && TouchedIn(ca[cr], old(touched)))
      ensures forall k :: |old(queue)| <= k < |queue| ==> queue[k] !in queue[..k]
    {
      hide Shape, Mentions, TouchedIn;
      EliminatedSize();
      NoneTouched(touched);
      if nTouched == 0 {
        return;
      }
      ghost var was, q := touched, queue;
      var marked := MarkQueued();
      assert was[..0] == [];
      for v := 0 to |assigns|
        invariant Shape() && |touched| == |was| == |assigns| == |occurs| && |marked| == |ca| == |dead| && q <= queue
        invariant forall u :: 0 <= u < |touched| ==> touched[u] == (u >= v && was[u])
        invariant forall cr :: 0 <= cr < |ca| && !dead[cr] ==> (marked[cr] <==> cr in queue)
        invariant forall cr :: cr in queue <==> cr in q || (St().Live(cr) && TouchedIn(ca[cr], was[..v]))
        invariant forall k :: |q| <= k < |queue| ==> queue[k] !in queue[..k]
      {
        ghost var before := queue;
        OneMoreTouched(was, v);
        if touched[v] {
          Lookup(v);
          EliminatedSize();
          marked := QueueListed(v, marked);
          forall cr | St().Live(cr) && Mentions(ca[cr], v) ensures cr in occurs[v] { UnderVar(cr, v); }
          Untouch(v);
        }
      }
      assert was[..|assigns|] == was;
      NothingTouched();
    }

    method NothingTouched()
      requires Shape() && forall v :: 0 <= v < |touched| ==> !touched[v]
      modifies this`nTouched
      ensures Shape()
    {
      hide StoreOk, OccursOk, InUse, SignaturesOk, TrailTrue, OnTrail;
      nTouched := 0;
    }

    lemma NoneTouched(t: seq<bool>)
      requires Shape() && t == touched
      ensures |t| == |assigns| && forall c: Clause :: !TouchedIn(c, [])
      ensures nTouched == 0 ==> (forall v :: 0 <= v < |t| ==> !t[v]) && forall c: Clause :: !TouchedIn(c, t)
    {
    }

    method Untouch(v: nat)
      requires Shape() && v < |touched|
      modifies this`touched
      ensures Shape() && touched == old(touched)[v := false]
    {
      hide StoreOk, OccursOk, InUse, SignaturesOk, TrailTrue, OnTrail;
      touched := touched[v := false];
    }

    method MarkQueued() returns (marked: seq<bool>)
      requires Shape()
      ensures |marked| == |ca| && forall cr :: 0 <= cr < |ca| ==> (marked[cr] <==> cr in queue && !dead[cr])
    {
      hide StoreOk, OccursOk, InUse, SignaturesOk, TrailTrue, OnTrail;
      EliminatedSize();
      marked := seq(|ca|, _ => false);
      for i := 0 to |queue|
        invariant |marked| == |ca| && forall cr :: 0 <= cr < |ca| ==> (marked[cr] <==> cr in queue[..i] && !dead[cr])
      {
        assert queue[i] in queue && queue[..i + 1] == queue[..i] + [queue[i]];
        if queue[i] >= 0 && !dead[queue[i]] {
          marked := marked[queue[i] := true];
        }
      }
      assert queue[..|queue|] == queue;
    }

    /** Queues what is listed under `v` and not yet marked as queued. */
    method QueueListed(v: nat, marked: seq<bool>) returns (now: seq<bool>)
      requires Shape() && v < |occurs| && |marked| == |ca| && forall cr :: cr in occurs[v] ==> St().Live(cr)
      requires forall cr :: 0 <= cr < |ca| && !dead[cr] ==> (marked[cr] <==> cr in queue)
      modifies this`queue
      ensures Shape() && old(queue) <= queue && |now| == |ca|
      ensures forall cr :: 0 <= cr < |ca| && cr < |dead| && !dead[cr] ==> (now[cr] <==> cr in queue)
      ensures forall cr :: cr in queue <==> cr in old(queue) || (cr >= 0 && cr in occurs[v])
      ensures forall k :: |old(queue)| <= k < |queue| ==> queue[k] !in queue[..k]
    {
      hide Shape;
      now := marked;
      ghost var q := queue;
      var cs := occurs[v];
      for j := 0 to |cs|
        invariant Shape() && q <= queue && |now| == |ca|
        invariant forall cr :: 0 <= cr < |ca| && cr < |dead| && !dead[cr] ==> (now[cr] <==> cr in queue)
        invariant forall cr :: cr in queue <==> cr in q || (cr >= 0 && cr in cs[..j])
        invariant forall k :: |q| <= k < |queue| ==> queue[k] !in queue[..k]
      {
        var cr := cs[j];
        assert cr in cs && cs[..j + 1] == cs[..j] + [cr];
        if !now[cr] {
          ghost var before := queue;
          EnqueueQueue(cr);
          assert forall k :: 0 <= k < |before| ==> queue[..k] == before[..k];
          assert queue[..|before|] == before;
          now := now[cr := true];
        }
      }
      assert cs[..|cs|] == cs;
    }

    /** Eliminates the variables of a list one after the other where that is allowed. */
    method EliminateAll(order: seq<nat>) returns (r: bool)
      requires Inv() && forall v :: v in order ==> v < |assigns|
      modifies this`ca, this`dead, this`abst, this`assigns, this`trail, this`occurs, this`queue, this`touched, this`nTouched, this`tmpUnit,
               this`bwdsubAssigns, this`eliminated, this`elimclauses, this`record
      ensures |assigns| == |old(assigns)| && |eliminated| == |old(eliminated)|
      ensures r ==> Inv() && Kept(old(assigns), assigns) && TakenFrom(old(eliminated), eliminated, Members(order), frozen)
      ensures r ==> AllTried(old(Now()), Now(), order, frozen, grow, clauseLim)
      ensures !r ==> forall m :: !SatAll(orig, m)
    {
      hide Shape, Sat, SatAll, RecordOk, Preserves, Kept, TakenFrom, VarTried;
      KeptRefl(assigns);
      EliminatedSize();
      NothingTaken(eliminated, Members(order), frozen);
      for i := 0 to |order|
        invariant |assigns| == |old(assigns)| && |eliminated| == |old(eliminated)|
        invariant Inv() && Kept(old(assigns), assigns) && TakenFrom(old(eliminated), eliminated, Members(order), frozen)
        invariant AllTried(old(Now()), Now(), order[..i], frozen, grow, clauseLim)
      {
        ghost var was := Now();
        assert order[..i + 1][..i] == order[..i];
        var v := order[i];
        assert v in order;
        KeptSize(old(assigns), assigns);
        EliminatedSize();
        if !eliminated[v] && assigns[v] == LUndef && !frozen[v] {
          ghost var before, gone := assigns, eliminated;
          r := EliminateVar(v);
          if !r {
            return false;
          }
          KeptTrans(old(assigns), before, assigns);
          OneTaken(old(eliminated), gone, eliminated, Members(order), frozen, v);
        }
        assert OneTried(was, Now(), v, frozen, grow, clauseLim);
      }
      assert order[..|order|] == order;
      return true;
    }

    /** Root propagation at the start of every simplification. */
    method Simplify() returns (r: bool)
      requires Usable()
      modifies this`assigns, this`trail, this`ok
      ensures Usable() && r == ok && (!old(ok) ==> !ok) && |assigns| == |old(assigns)|
      ensures r ==> Kept(old(assigns), assigns) && SameSat(old(St()), St())
    {
      hide Shape, Sat, SatAll, RecordOk, Preserves, Kept, SameSat, NoSat, LearntsOk, Quiet;
      if !ok {
        return false;
      }
      ghost var st := St();
      EliminatedSize();
      r := Propagate();
      KeptSize(st.assigns, assigns);
      StillPreserved(orig, record, st, St(), r);
      ok := r;
    }

    /** Simplifies in rounds; does nothing but propagate once simplification has been turned off. */
    method Eliminate(turnOff: bool, rounds: seq<seq<nat>>) returns (r: bool)
      requires Usable() && forall order, v :: order in rounds && v in order ==> v < |assigns|
      modifies this`ca, this`dead, this`abst, this`assigns, this`trail, this`occurs, this`queue, this`touched, this`nTouched,
               this`tmpUnit, this`bwdsubAssigns, this`eliminated, this`elimclauses, this`record, this`ok, this`useSimplification
      ensures Usable() && r == ok && (!old(ok) ==> !ok) && |assigns| == |old(assigns)|
      ensures r ==> Kept(old(assigns), assigns) && TakenFrom(old(eliminated), eliminated, AllOf(rounds), frozen)
      ensures r && old(useSimplification) && rounds != [] ==>
                CanBeSubsumed(old(St()), old(queue), old(bwdsubAssigns), subsumptionLim)
      ensures r && old(useSimplification) ==> Rounds(old(Now()), Now(), rounds, frozen, grow, clauseLim)
      ensures if turnOff then r ==> !useSimplification else useSimplification == old(useSimplification)
    {
      hide Shape, RecordOk, Preserves, Sat, SatAll, Kept, TakenFrom, SameSat, NoSat, CanBeSubsumed, LearntsOk, AllOf, RoundsDone;
      NothingTaken(eliminated, AllOf(rounds), frozen);
      ghost var st := St();
      r := Simplify();
      if r && useSimplification {
        ghost var mid, gone := St(), eliminated;
        assert Beforehand(Moment(st, gone), Now());
        r := EliminateRounds(rounds);
        ok := r;
        if r {
          KeptTrans(st.assigns, mid.assigns, assigns);
          assert Rounds(Moment(st, gone), Now(), rounds, frozen, grow, clauseLim);
          if rounds != [] { SubsumedBefore(st, mid, old(queue), old(queue), old(bwdsubAssigns), subsumptionLim); }
        }
        if turnOff {
          useSimplification := false;
        }
      }
    }

    /** Backward subsumption with the clauses that have been touched, then elimination of the variables that come up, in
        every round. */
    method EliminateRounds(rounds: seq<seq<nat>>) returns (r: bool)
      requires Inv() && forall order, v :: order in rounds && v in order ==> v < |assigns|
      modifies this`ca, this`dead, this`abst, this`assigns, this`trail, this`occurs, this`queue, this`touched, this`nTouched,
               this`tmpUnit, this`bwdsubAssigns, this`eliminated, this`elimclauses, this`record
      ensures r ==> Inv() && Kept(old(assigns), assigns) && TakenFrom(old(eliminated), eliminated, AllOf(rounds), frozen)
      ensures |assigns| == |old(assigns)| && |eliminated| == |old(eliminated)|
      ensures !r ==> forall m :: !SatAll(orig, m)
      ensures r && rounds != [] ==> CanBeSubsumed(old(St()), old(queue), old(bwdsubAssigns), subsumptionLim)
      ensures r ==> RoundsDone(old(Now()), Now(), rounds, frozen, grow, clauseLim)
    {
      hide Shape, Sat, SatAll, RecordOk, Preserves, Kept, TakenFrom, CanBeSubsumed, RoundDone;
      ghost var st := St();
      KeptRefl(assigns);
      EliminatedSize();
      NothingTaken(eliminated, AllOf(rounds), frozen);
      for i := 0 to |rounds|
        invariant i == 0 ==> St() == st && queue == old(queue) && bwdsubAssigns == old(bwdsubAssigns)
        invariant i > 0 ==> CanBeSubsumed(st, old(queue), old(bwdsubAssigns), subsumptionLim)
        invariant |assigns| == |old(assigns)| && |eliminated| == |old(eliminated)|
        invariant Inv() && Kept(st.assigns, assigns) && TakenFrom(old(eliminated), eliminated, AllOf(rounds), frozen)
        invariant RoundsDone(old(Now()), Now(), rounds[..i], frozen, grow, clauseLim)
      {
        ghost var was := Now();
        assert rounds[..i + 1][..i] == rounds[..i];
        ghost var before, gone := assigns, eliminated;
        assert rounds[i] in rounds;
        KeptSize(st.assigns, assigns);
        r := EliminationRound(rounds[i]);
        if !r {
          return false;
        }
        KeptTrans(st.assigns, before, assigns);
        MoreTaken(old(eliminated), gone, eliminated, rounds[i], rounds, frozen);
        assert RoundDone(was, Now(), rounds[i], frozen, grow, clauseLim);
      }
      assert rounds[..|rounds|] == rounds;
      return true;
    }

    /** One round; it cannot succeed unless backward subsumption does. */
    method EliminationRound(order: seq<nat>) returns (r: bool)
      requires Inv() && forall v :: v in order ==> v < |assigns|
      modifies this`ca, this`dead, this`abst, this`assigns, this`trail, this`occurs, this`queue, this`touched, this`nTouched, this`tmpUnit,
               this`bwdsubAssigns, this`eliminated, this`elimclauses, this`record
      ensures |assigns| == |old(assigns)| && |eliminated| == |old(eliminated)|
      ensures r ==> Inv() && Kept(old(assigns), assigns) && TakenFrom(old(eliminated), eliminated, Members(order), frozen)
      ensures !r ==> forall m :: !SatAll(orig, m)
      ensures r ==> CanBeSubsumed(old(St()), old(queue), old(bwdsubAssigns), subsumptionLim)
      ensures r ==> RoundDone(old(Now()), Now(), order, frozen, grow, clauseLim)
    {
      hide Shape, Sat, SatAll, RecordOk, Preserves, Kept, TakenFrom, SameSat, NoSat, CanBeSubsumed;
      ghost var st, from := St(), bwdsubAssigns;
      KeptRefl(assigns);
      GatherTouchedClauses();
      ghost var q := queue;
      SameRefl(st);
      if queue != [] || bwdsubAssigns < |trail| {
        r := BackwardSubsumptionCheck();
        KeptSize(st.assigns, assigns);
        StillPreserved(orig, record, st, St(), r);
        if !r {
          return false;
        }
      }
      NowSubsumed(st, q, from);
      SubsumedBefore(st, st, old(queue), q, from, subsumptionLim);
      ghost var mid := Now();
      r := EliminateAll(order);
      KeptTrans(st.assigns, mid.st.assigns, assigns);
      if r { RoundHere(Moment(st, mid.gone), mid, Now(), order, frozen, grow, clauseLim); }
    }

    lemma NowSubsumed(st: Store, q: seq<int>, from: nat)
      requires Shape() && SameSat(st, St()) && |st.ca| == |ca| && |st.assigns| == |assigns|
      requires forall cr :: St().Live(cr) ==> ca[cr] == st.ca[cr] || |ca[cr]| < |st.ca[cr]|
      requires forall cr :: St().Live(cr) && cr in q ==> Exhausted(st.ca, St(), subsumptionLim, ca[cr], cr)
      requires forall k :: from <= k < |trail| ==> Exhausted(st.ca, St(), subsumptionLim, [trail[k]], -1)
      ensures CanBeSubsumed(st, q, from, subsumptionLim)
    {
      hide SameSat, OccursOk, InUse, SignaturesOk, TrailTrue, Exhausted;
      assert AfterSubsumption(st, q, from, subsumptionLim, St(), trail);
    }

    // ---------- the interface ----------

    /** A solver for `n` variables; those in `keep` are never eliminated. */
    constructor (n: nat, keep: seq<bool>, grow: int, clauseLim: int, subsumptionLim: int)
      requires |keep| == n
      ensures Usable() && ok && useSimplification && conflict == {} && orig == [] && |assigns| == n && frozen == keep
      ensures |ca| == 0 && |dead| == 0 && queue == [] && trail == [] && bwdsubAssigns == 0
      ensures this.grow == grow && this.clauseLim == clauseLim && this.subsumptionLim == subsumptionLim
      ensures |eliminated| == n && forall v :: 0 <= v < n ==> !eliminated[v] && assigns[v] == LUndef
    {
      this.grow, this.clauseLim, this.subsumptionLim := grow, clauseLim, subsumptionLim;
      ca, dead, abst, trail, queue, elimclauses, record, orig := [], [], [], [], [], [], [], [];
      assigns, occurs, eliminated := seq(n, _ => LUndef), seq(n, _ => []), seq(n, _ => false);
      frozen, model, tmpUnit, bwdsubAssigns := keep, [], Lit(0, false), 0;
      touched, nTouched := seq(n, _ => false), 0;
      ok, useSimplification, conflict, learnts := true, true, {}, [];
    }

    /** The remaining clauses have a model exactly if the original ones have one, also under assumptions about variables
        that have not been eliminated. */
    lemma Equisatisfiable(hyps: seq<Lit>)
      requires Inv() && forall l :: l in hyps ==> l.v < |eliminated| && !eliminated[l.v]
      ensures (exists m :: SatAll(orig, m) && AllMade(m, hyps)) <==> (exists m :: Sat(St(), m) && AllMade(m, hyps))
    {
      hide Shape, Sat, SatAll, Extend, Flatten, Ordered;
      if exists m :: Sat(St(), m) && AllMade(m, hyps) {
        var m :| Sat(St(), m) && AllMade(m, hyps);
        forall l | l in hyps ensures Makes(Extend(record, m), l) { ExtendOff(record, m, l); }
        assert SatAll(orig, Extend(record, m));
      }
    }

    /** The solver between calls: unless the clauses have turned out to have no model, the invariant holds and learnt
        clauses follow from the original ones. They may be about variables eliminated since they were learnt. */
    ghost predicate Usable()
      reads this
    {
      && |eliminated| == |assigns| == |frozen|
      && if ok then Inv() && LearntsOk(orig, learnts, |assigns|) else forall m :: !SatAll(orig, m)
    }

    /** Adds a clause about variables that have not been eliminated. */
    method AddClause(ps: Clause) returns (r: bool)
      requires Usable() && forall l :: l in ps ==> l.v < |eliminated| && !eliminated[l.v]
      modifies this`ca, this`dead, this`abst, this`assigns, this`trail, this`occurs, this`queue, this`touched, this`nTouched,
               this`ok, this`orig
      ensures Usable() && r == ok && (!old(ok) ==> !ok) && orig == old(orig) + [ps] && |assigns| == |old(assigns)|
      ensures r ==> Kept(old(assigns), assigns)
      ensures old(ok) && OpenClause(old(assigns), ps) ==>
                ok && Joined(old(St()), St(), ps) && trail == old(trail) && queue == old(queue) + [|old(ca)|]
    {
      hide Shape, Sat, SatAll, SatClause, RecordOk, Kept, OpenClause, Joined, LearntsOk, Preserves, Store.Live;
      if !ok {
        NoneWithMore(orig, ps);
        orig := orig + [ps];
        return false;
      }
      EliminatedSize();
      ghost var st := St();
      r := AddSimplified(ps);
      KeptSize(old(assigns), assigns);
      OriginalGrows(orig, record, st, St(), ps, eliminated, elimclauses, r);
      LearntsStay(orig, ps, learnts, |assigns|);
      orig := orig + [ps];
      ok := r;
    }

    /** Keeps a literal that holds in every model of the original clauses, as a value or behind an eliminated variable. */
    method KeepValue(l: Lit)
      requires Usable() && ok && l.v < |assigns| && Entailed(orig, [l])
      modifies this`assigns, this`trail, this`learnts, this`ok
      ensures Usable() && Kept(old(assigns), assigns)
      ensures forall c: Clause :: c in old(learnts) ==> c in learnts
      ensures ok ==> Value(assigns, l) == LTrue || [l] in learnts
    {
      hide Shape, Sat, SatAll, SatClause, RecordOk, Preserves, Kept, Entailed;
      KeptRefl(assigns);
      EliminatedSize();
      if eliminated[l.v] {
        learnts := learnts + [[l]];
      } else {
        ghost var st := St();
        ok := Enqueue(l);
        KeptSize(st.assigns, assigns);
        EntailedPreserves(orig, record, st, St(), l, ok);
      }
    }

    /** Completes the model of the remaining clauses: the recorded clauses are read backwards from the list of integers. */
    method ExtendModel()
      requires elimclauses == Flatten(record) && forall e: Clause :: e in record ==> e != [] && e[0].v < |model|
      modifies this`model
      ensures model == ExtendPartial(record, old(model)) && |model| == |old(model)|
    {
      hide Flatten, ExtendPartial, FlipPartial;
      var i := |elimclauses| - 1;
      ghost var k := |record|;
      assert record[..k] == record && elimclauses[..i + 1] == elimclauses;
      while i > 0
        invariant 0 <= k <= |record| && -1 <= i < |elimclauses| && elimclauses[..i + 1] == Flatten(record[..k])
        invariant ExtendPartial(record, old(model)) == ExtendPartial(record[..k], model) && |model| == |old(model)|
        decreases i
      {
        LastEntry(record, k, elimclauses, i);
        k := k - 1;
        PartialLast(record, k + 1, model);
        ghost var e := record[k];
        assert e in record;
        ghost var low, top, md := i - |e| - 1, i, model;
        var j := elimclauses[i];
        i := i - 1;
        var satisfied := false;
        while j > 1 && !satisfied
          invariant 1 <= j <= |e| && i == low + j && 0 <= i < |elimclauses| && model == md
          invariant forall h :: j <= h < |e| ==> Value(model, e[h]) == LFalse
          invariant satisfied ==> j > 1 && Value(model, e[j - 1]) != LFalse
          decreases j, !satisfied
        {
          assert elimclauses[i] == elimclauses[low + 1..top][j - 1] == Ints(e)[j - 1];
          ToIntInverse(e[j - 1], 0);
          if Value(model, ToLit(elimclauses[i])) != LFalse {
            satisfied := true;
          } else {
            j, i := j - 1, i - 1;
          }
        }
        FlipStep(e, model, j, satisfied);
        if !satisfied {
          assert elimclauses[i] == elimclauses[low + 1..top][0] == Ints(e)[0];
          ToIntInverse(e[0], 0);
          var x := ToLit(elimclauses[i]);
          model := model[x.v := FromBool(!x.neg)];
        }
        i := i - j;
      }
      AllRead(record, k, elimclauses, i);
    }

    /** A model of the remaining clauses that leaves no variable in use undefined becomes a model of all clauses that were
        ever added. */
    method Complete()
      requires Inv() && |model| == |assigns| && (forall v :: v in UsedVars(eliminated) ==> model[v] != LUndef)
      requires forall m :: Agrees(model, m) ==> Sat(St(), m)
      modifies this`model
      ensures |model| == |old(model)| && forall v :: 0 <= v < |model| ==> model[v] != LUndef
      ensures forall v :: v in UsedVars(eliminated) && v < |model| ==> model[v] == old(model)[v]
      ensures forall c: Clause :: c in orig ==> exists l :: l in c && Value(model, l) == LTrue
    {
      hide Shape, Sat, Flatten, ExtendPartial, Agrees, Ordered;
      EliminatedSize();
      ghost var before := model;
      ExtendModel();
      Completed(orig, record, elimclauses, eliminated, St(), before, model);
    }
  }

  ghost predicate AllMade(m: Model, hyps: seq<Lit>) { forall l :: l in hyps ==> Makes(m, l) }

  /** Clause `c` holds in every model of the original clauses. */
  ghost predicate Entailed(orig: seq<Clause>, c: Clause) { forall m :: SatAll(orig, m) ==> SatClause(m, c) }

  ghost predicate LearntsOk(orig: seq<Clause>, learnts: seq<Clause>, n: nat) {
    forall c: Clause :: c in learnts ==> Entailed(orig, c) && forall l :: l in c ==> l.v < n
  }

  lemma EntailedPreserves(orig: seq<Clause>, record: seq<Clause>, a: Store, b: Store, l: Lit, r: bool)
    requires Preserves(orig, record, a) && Entailed(orig, [l])
    requires if r then forall m :: Sat(b, m) <==> Sat(a, m) && Makes(m, l) else forall m :: Sat(a, m) ==> !Makes(m, l)
    ensures if r then Preserves(orig, record, b) else forall m :: !SatAll(orig, m)
  {
    hide SatAll, Sat, SatClause, Extend;
    forall m | SatAll(orig, m) ensures Makes(m, l) { SingleSat(m, [l]); }
  }

  lemma LearntsStay(orig: seq<Clause>, c: Clause, learnts: seq<Clause>, n: nat)
    requires LearntsOk(orig, learnts, n)
    ensures LearntsOk(orig + [c], learnts, n)
  {
    hide SatClause, SatAll;
    forall m ensures SatAll(orig + [c], m) ==> SatAll(orig, m) { SatAllOneMore(orig, c, m); }
  }

  lemma NoneWithMore(orig: seq<Clause>, c: Clause)
    requires forall m :: !SatAll(orig, m)
    ensures forall m :: !SatAll(orig + [c], m)
  {
    hide SatAll;
    forall m ensures !SatAll(orig + [c], m) { SatAllOneMore(orig, c, m); }
  }

  ghost function UsedVars(eliminated: seq<bool>): set<nat> {
    set v | 0 <= v < |eliminated| && !eliminated[v]
  }

  /** The record is well formed: scanned backwards it only looks at variables that are in use or set already, and it sets
      exactly the eliminated variables. */
  ghost predicate RecordOk(record: seq<Clause>, elimclauses: seq<nat>, eliminated: seq<bool>) {
    && elimclauses == Flatten(record) && Ordered(record, UsedVars(eliminated))
    && (forall e: Clause :: e in record ==> e != [] && e[0].v < |eliminated| && eliminated[e[0].v])
    && forall v: nat :: v < |eliminated| && eliminated[v] ==> exists e: Clause :: e in record && |e| == 1 && e[0].v == v
  }

  /** The store keeps the models of the original clauses, and every model of it extends to one of them. */
  ghost predicate Preserves(orig: seq<Clause>, record: seq<Clause>, st: Store) {
    && (forall m :: SatAll(orig, m) ==> Sat(st, m))
    && forall m :: Sat(st, m) ==> SatAll(orig, Extend(record, m))
  }

  lemma OneSign(n: nat, p: Clause, x: Lit)
    requires ClauseOk(n, p) && x in p
    ensures forall l: Lit :: l in p && l.v == x.v ==> l == x
  {
    var i :| 0 <= i < |p| && p[i] == x;
    forall l | l in p && l.v == x.v ensures l == x { var j :| 0 <= j < |p| && p[j] == l; }
  }

  lemma RecordGrows(before: seq<Clause>, record: seq<Clause>, elimclauses: seq<nat>, used: seq<bool>, fs: seq<Clause>, y: Lit,
                    v: nat, ps: seq<Clause>, qs: seq<Clause>)
    requires v < |used| && y.v == v && Fronts(fs, y) && record == before + Group(fs, y) && elimclauses == Flatten(record)
    requires exists flat :: RecordOk(before, flat, used)
    requires forall f: Clause, l: Lit :: f in fs && l in f[1..] ==> exists c: Clause :: c in ps + qs && l in c
    requires forall p: Clause :: p in ps + qs ==> forall l: Lit :: l in p ==> l.v in UsedVars(used)
    ensures RecordOk(record, elimclauses, used[v := true])
  {
    hide Flatten, Ordered;
    var now := used[v := true];
    forall f: Clause, l: Lit | f in fs && l in f[1..] ensures l.v in UsedVars(used) - {v} {
      var c: Clause :| c in ps + qs && l in c;
    }
    OrderedGroup(before, fs, y, UsedVars(used));
    assert UsedVars(now) == UsedVars(used) - {v};
    assert record[|record| - 1] == [Neg(y)];
    assert [Neg(y)] in record && forall e: Clause :: e in before ==> e in record;
    forall e: Clause | e in record ensures e != [] && e[0].v < |now| && now[e[0].v] {
      assert e in before || e in fs || e == [Neg(y)];
    }
  }

  lemma RecordFlat(record: seq<Clause>, elimclauses: seq<nat>, eliminated: seq<bool>)
    requires RecordOk(record, elimclauses, eliminated)
    ensures elimclauses == Flatten(record)
  {
  }

  /** If the resolvents contradict the rest, there was no model to begin with. */
  lemma NoOriginal(orig: seq<Clause>, record: seq<Clause>, st: Store, removed: Store, ps: seq<Clause>, qs: seq<Clause>, v: nat)
    requires Preserves(orig, record, st) && Side(ps, Lit(v, false)) && Side(qs, Lit(v, true))
    requires forall m :: Sat(st, m) <==> Sat(removed, m) && SatAll(ps, m) && SatAll(qs, m)
    requires forall m :: Sat(removed, m) ==> !ResolventsSat(ps, qs, v, |ps|, 0, m)
    ensures forall m :: !SatAll(orig, m)
  {
    hide Sat, SatAll, ResolventsSat, Side;
    forall m ensures !SatAll(orig, m) {
      if Sat(st, m) { ResolventsSound(ps, qs, Lit(v, false), m); }
    }
  }

  /** The heart of variable elimination: what the clauses on `v` said is kept by their resolvents and the record. */
  lemma Replaced(orig: seq<Clause>, record: seq<Clause>, st: Store, removed: Store, added: Store, ps: seq<Clause>,
                 qs: seq<Clause>, fs: seq<Clause>, y: Lit, v: nat)
    requires Preserves(orig, record, st) && Side(ps, Lit(v, false)) && Side(qs, Lit(v, true)) && y.v == v
    requires if y.neg then Recorded(fs, qs, y) else Recorded(fs, ps, y)
    requires forall m :: Sat(st, m) <==> Sat(removed, m) && SatAll(ps, m) && SatAll(qs, m)
    requires forall m :: Sat(added, m) <==> Sat(removed, m) && ResolventsSat(ps, qs, v, |ps|, 0, m)
    requires Untouched(removed, v)
    ensures Preserves(orig, record + Group(fs, y), added)
  {
    hide Sat, SatAll, ResolventsSat, Side, Recorded, Untouched, Group, Extend;
    forall m | SatAll(orig, m) ensures Sat(added, m) {
      ResolventsSound(ps, qs, Lit(v, false), m);
    }
    forall m | Sat(added, m) ensures SatAll(orig, Extend(record + Group(fs, y), m)) {
      var m' := Extend(Group(fs, y), m);
      BothSatisfied(ps, qs, fs, y, v, m);
      UntouchedStays(removed, fs, y, v, m);
      assert Sat(st, m');
      ExtendAppend(record, Group(fs, y), m);
    }
  }

  /** No clause and no value is about `v`. */
  ghost predicate Untouched(st: Store, v: nat) {
    (forall cr :: st.Live(cr) ==> !Mentions(st.ca[cr], v)) && (v < |st.assigns| ==> st.assigns[v] == LUndef)
  }

  lemma UntouchedStays(st: Store, fs: seq<Clause>, y: Lit, v: nat, m: Model)
    requires Untouched(st, v) && y.v == v && Sat(st, m) && Fronts(fs, y)
    ensures Sat(st, Extend(Group(fs, y), m))
  {
    hide Extend;
    var g := Group(fs, y);
    var m' := Extend(g, m);
    assert forall e: Clause :: e in g ==> e in fs || e == [Neg(y)];
    forall u | 0 <= u < |st.assigns| && st.assigns[u] != LUndef ensures u in m' <==> u in m {
      ExtendOff(g, m, Lit(u, false));
    }
    forall cr | st.Live(cr) ensures SatClause(m', st.ca[cr]) { ExtendOffClause(g, m, st.ca[cr]); }
  }

  lemma BothSatisfied(ps: seq<Clause>, qs: seq<Clause>, fs: seq<Clause>, y: Lit, v: nat, m: Model)
    requires Side(ps, Lit(v, false)) && Side(qs, Lit(v, true)) && y.v == v
    requires if y.neg then Recorded(fs, qs, y) else Recorded(fs, ps, y)
    requires ResolventsSat(ps, qs, v, |ps|, 0, m)
    ensures Fronts(fs, y) && SatAll(ps, Extend(Group(fs, y), m)) && SatAll(qs, Extend(Group(fs, y), m))
  {
    hide SatClause, Extend, Group, Same, ResolventsSat, Side;
    var r := Extend(Group(fs, y), m);
    if y.neg {
      Mirrored(ps, qs, v, m);
      GroupSatisfies(qs, ps, fs, m, y);
      assert forall c: Clause :: c in ps || c in qs ==> c in qs + ps;
    } else {
      GroupSatisfies(ps, qs, fs, m, y);
      assert forall c: Clause :: c in ps || c in qs ==> c in ps + qs;
    }
  }

  lemma Mirrored(ps: seq<Clause>, qs: seq<Clause>, v: nat, m: Model)
    requires ResolventsSat(ps, qs, v, |ps|, 0, m)
    ensures ResolventsSat(qs, ps, v, |qs|, 0, m)
  {
    hide Tautology, Resolvent, SatClause;
    forall a, b | 0 <= a < |qs| && 0 <= b < |ps| && !Tautology(qs[a], ps[b], v) ensures SatClause(m, Resolvent(qs[a], ps[b], v)) {
      TautologySymmetric(qs[a], ps[b], v);
      ResolventSymmetric(ps[b], qs[a], v, m);
    }
  }

  /** A clause about variables in use is not disturbed by the extension. */
  lemma OriginalGrows(orig: seq<Clause>, record: seq<Clause>, st: Store, u: Store, c: Clause, eliminated: seq<bool>,
                      elimclauses: seq<nat>, r: bool)
    requires Preserves(orig, record, st) && RecordOk(record, elimclauses, eliminated)
    requires forall l :: l in c ==> l.v < |eliminated| && !eliminated[l.v]
    requires if r then forall m :: Sat(u, m) <==> Sat(st, m) && SatClause(m, c) else forall m :: Sat(st, m) ==> !SatClause(m, c)
    ensures if r then Preserves(orig + [c], record, u) else forall m :: !SatAll(orig + [c], m)
  {
    hide Sat, SatClause, Extend, Flatten, Ordered, SatAll;
    forall m ensures SatAll(orig + [c], m) <==> SatAll(orig, m) && SatClause(m, c) { SatAllOneMore(orig, c, m); }
    if r {
      forall m | Sat(u, m) ensures SatAll(orig + [c], Extend(record, m)) { ExtendOffClause(record, m, c); }
    }
  }

  lemma LastEntry(record: seq<Clause>, k: nat, flat: seq<nat>, i: nat)
    requires k <= |record| && 0 < i < |flat| && flat[..i + 1] == Flatten(record[..k])
    requires forall e: Clause :: e in record ==> e != []
    ensures k > 0 && flat[i] == |record[k - 1]| > 0 && |record[k - 1]| <= i
    ensures var low := i - |record[k - 1]| - 1;
            && flat[..low + 1] == Flatten(record[..k - 1])
            && flat[low + 1..i] == Ints(record[k - 1])
  {
    if k > 0 {
      FlattenLast(record, k);
      assert record[k - 1] in record;
      var e, low := record[k - 1], i - |record[k - 1]| - 1;
      assert |Ints(e)| == |e| && flat[i] == flat[..i + 1][i];
      assert flat[..low + 1] == flat[..i + 1][..low + 1] == Flatten(record[..k - 1]);
      var rest := Flatten(record[..k - 1]);
      assert |rest| == low + 1;
      forall h | 0 <= h < |e| ensures flat[low + 1..i][h] == Ints(e)[h] {
        assert flat[low + 1..i][h] == flat[..i + 1][low + 1 + h] == (rest + Ints(e) + [|e|])[|rest| + h];
      }
    }
  }

  lemma FlipStep(e: Clause, md: seq<LB>, j: nat, satisfied: bool)
    requires 1 <= j <= |e| && e[0].v < |md| && (forall h :: j <= h < |e| ==> Value(md, e[h]) == LFalse)
    requires if satisfied then j > 1 && Value(md, e[j - 1]) != LFalse else j == 1
    ensures FlipPartial(e, md) == if satisfied then md else md[e[0].v := FromBool(!e[0].neg)]
  {
  }

  lemma AllRead(record: seq<Clause>, k: nat, flat: seq<nat>, i: int)
    requires k <= |record| && -1 <= i <= 0 && i < |flat| && flat[..i + 1] == Flatten(record[..k])
    requires forall e: Clause :: e in record ==> e != []
    ensures k == 0 && forall md :: ExtendPartial(record[..k], md) == md
  {
    assert forall e: Clause :: e in record[..k] ==> e in record;
    FlattenSize(record[..k]);
  }

  /** The total assignment that has the values of `md` below its length and those of `m` beyond. */
  ghost function Completion(md: seq<LB>, m: Model): Model {
    iset v: nat | if v < |md| && md[v] != LUndef then md[v] == LTrue else v in m
  }

  lemma Completed(orig: seq<Clause>, record: seq<Clause>, elimclauses: seq<nat>, eliminated: seq<bool>, st: Store,
                  before: seq<LB>, after: seq<LB>)
    requires Preserves(orig, record, st) && RecordOk(record, elimclauses, eliminated) && after == ExtendPartial(record, before)
    requires |before| == |eliminated| && (forall v :: v in UsedVars(eliminated) ==> before[v] != LUndef)
    requires forall m :: Agrees(before, m) ==> Sat(st, m)
    requires forall c: Clause, l: Lit :: c in orig && l in c ==> l.v < |eliminated|
    ensures |after| == |before| && forall v :: 0 <= v < |after| ==> after[v] != LUndef
    ensures forall v :: v in UsedVars(eliminated) ==> after[v] == before[v]
    ensures forall c: Clause :: c in orig ==> exists l :: l in c && Value(after, l) == LTrue
  {
    hide Sat, Extend, ExtendPartial, Flatten, Ordered;
    var m := Completion(before, iset{});
    ExtendAgrees(record, before, m, UsedVars(eliminated));
    var full := Extend(record, m);
    forall v | 0 <= v < |after| ensures after[v] != LUndef {
      if eliminated[v] { var e: Clause :| e in record && |e| == 1 && e[0].v == v; }
      else { assert v in UsedVars(eliminated); }
    }
    forall v | v in UsedVars(eliminated) ensures after[v] == before[v] { ExtendOff(record, m, Lit(v, false)); }
    assert SatAll(orig, full);
    forall c: Clause | c in orig ensures exists l :: l in c && Value(after, l) == LTrue {
      var l :| l in c && Makes(full, l);
      assert l.v in full <==> after[l.v] == LTrue;
    }
  }

  lemma MarkInUse(st: Store, eliminated: seq<bool>, v: nat)
    requires InUse(st, eliminated) && v < |eliminated| && st.assigns[v] == LUndef
    requires forall cr :: st.Live(cr) ==> !Mentions(st.ca[cr], v)
    ensures InUse(st, eliminated[v := true])
  {
  }

  lemma SameLists(ca: seq<Clause>, cls: seq<nat>, pos: seq<nat>, neg: seq<nat>)
    requires forall k :: 0 <= k < |cls| ==> cls[k] < |ca|
    requires (forall k :: 0 <= k < |pos| ==> pos[k] < |ca|) && forall k :: 0 <= k < |neg| ==> neg[k] < |ca|
    requires forall cr :: cr in cls <==> cr in pos || cr in neg
    ensures forall m :: SatAll(ClausesOf(ca, cls), m) <==> SatAll(ClausesOf(ca, pos), m) && SatAll(ClausesOf(ca, neg), m)
  {
    hide SatClause;
    forall c: Clause ensures c in ClausesOf(ca, cls) <==> c in ClausesOf(ca, pos) || c in ClausesOf(ca, neg) {
      ClauseIn(ca, cls, c);
      ClauseIn(ca, pos, c);
      ClauseIn(ca, neg, c);
    }
  }

  lemma ClauseIn(ca: seq<Clause>, cs: seq<nat>, c: Clause)
    requires forall k :: 0 <= k < |cs| ==> cs[k] < |ca|
    ensures c in ClausesOf(ca, cs) <==> exists cr :: cr in cs && cr < |ca| && ca[cr] == c
  {
    if c in ClausesOf(ca, cs) {
      var k :| 0 <= k < |cs| && ClausesOf(ca, cs)[k] == c;
      assert cs[k] in cs;
    }
    if exists cr :: cr in cs && cr < |ca| && ca[cr] == c {
      var cr :| cr in cs && cr < |ca| && ca[cr] == c;
      var k :| 0 <= k < |cs| && cs[k] == cr;
      assert ClausesOf(ca, cs)[k] == c;
    }
  }

  lemma AllRemoved(st: Store, u: Store, pos: seq<nat>, neg: seq<nat>, v: nat, cls: seq<nat>)
    requires u.ca == st.ca && |u.dead| == |st.dead| == |st.ca|
    requires forall b :: 0 <= b < |u.dead| ==> u.dead[b] == (st.dead[b] || b in cls)
    requires forall cr :: st.Live(cr) && Mentions(st.ca[cr], v) ==> cr in pos || cr in neg
    requires forall cr :: cr in cls <==> cr in pos || cr in neg
    ensures forall cr :: u.Live(cr) ==> !Mentions(u.ca[cr], v)
  {
    hide Mentions;
  }

  ghost predicate ParentOk(p: Clause, v: nat, eliminated: seq<bool>) {
    ClauseOk(|eliminated|, p) && forall l :: l in p && l.v != v ==> l.v < |eliminated| && !eliminated[l.v]
  }

  lemma ParentClause(cs: seq<nat>, ps: seq<Clause>, v: nat, k: nat, ca: seq<Clause>, ca': seq<Clause>)
    requires k < |cs| == |ps| && cs[k] < |ca| && ps[k] == ca[cs[k]] && ca <= ca'
    ensures cs[k] < |ca'| && ca'[cs[k]] == ps[k]
  {
  }

  lemma ResolventInUse(p: Clause, q: Clause, v: nat, eliminated: seq<bool>)
    requires ParentOk(p, v, eliminated) && ParentOk(q, v, eliminated)
    ensures ClauseOk(|eliminated|, p) && ClauseOk(|eliminated|, q)
    ensures forall l :: l in Resolvent(p, q, v) ==> l.v < |eliminated| && !eliminated[l.v]
  {
    hide Resolvent, ClauseOk;
    forall l | l in Resolvent(p, q, v) ensures l.v < |eliminated| && !eliminated[l.v] { ResolventMember(p, q, v, l); }
  }

  lemma SatAllOneMore(cs: seq<Clause>, c: Clause, m: Model)
    ensures SatAll(cs + [c], m) <==> SatAll(cs, m) && SatClause(m, c)
  {
    assert c in cs + [c];
    assert forall e: Clause :: e in cs ==> e in cs + [c];
  }

  lemma NoResolvents(ps: seq<Clause>, qs: seq<Clause>, v: nat)
    ensures forall m :: ResolventsSat(ps, qs, v, 0, 0, m)
  {
  }

  lemma OneResolvent(ps: seq<Clause>, qs: seq<Clause>, v: nat, i: nat, j: nat, nontrivial: bool)
    requires i < |ps| && j < |qs| && (nontrivial <==> !Tautology(ps[i], qs[j], v))
    ensures forall m :: ResolventsSat(ps, qs, v, i, j + 1, m) <==>
                        ResolventsSat(ps, qs, v, i, j, m) && (nontrivial ==> SatClause(m, Resolvent(ps[i], qs[j], v)))
  {
    hide Tautology, SatClause, Resolvent;
  }

  lemma NextRow(ps: seq<Clause>, qs: seq<Clause>, v: nat, i: nat)
    requires i < |ps|
    ensures forall m :: ResolventsSat(ps, qs, v, i, |qs|, m) <==> ResolventsSat(ps, qs, v, i + 1, 0, m)
  {
    hide Tautology, SatClause, Resolvent;
  }

  lemma NeverAll(ps: seq<Clause>, qs: seq<Clause>, v: nat, i: nat, j: nat)
    requires i < |ps| && j < |qs|
    ensures forall m :: ResolventsSat(ps, qs, v, |ps|, 0, m) ==> ResolventsSat(ps, qs, v, i, j + 1, m)
  {
    hide Tautology, SatClause, Resolvent;
  }

  /** `pos` and `neg` are the clauses listed in `occ`, split by the sign of `v`. */
  ghost predicate Parted(ca: seq<Clause>, occ: seq<nat>, pos: seq<nat>, neg: seq<nat>, v: nat) {
    && (forall cr :: cr in pos ==> cr in occ && cr < |ca| && Lit(v, false) in ca[cr])
    && (forall cr :: cr in neg ==> cr in occ && cr < |ca| && Lit(v, true) in ca[cr])
    && (forall cr :: cr in occ ==> cr in pos || cr in neg)
    && Distinct(pos) && Distinct(neg)
  }

  lemma NothingParted(ca: seq<Clause>, v: nat)
    ensures Parted(ca, [], [], [], v)
  {
  }

  lemma OneParted(ca: seq<Clause>, occ: seq<nat>, pos: seq<nat>, neg: seq<nat>, v: nat, cr: nat)
    requires Parted(ca, occ, pos, neg, v) && cr !in occ && cr < |ca|
    ensures Lit(v, false) in ca[cr] ==> Parted(ca, occ + [cr], pos + [cr], neg, v)
    ensures Lit(v, true) in ca[cr] ==> Parted(ca, occ + [cr], pos, neg + [cr], v)
  {
  }

  lemma SidesParted(ca: seq<Clause>, occ: seq<nat>, pos: seq<nat>, neg: seq<nat>, v: nat)
    requires Parted(ca, occ, pos, neg, v)
    ensures (forall k :: 0 <= k < |pos| ==> pos[k] in occ && pos[k] < |ca| && Lit(v, false) in ca[pos[k]])
    ensures (forall k :: 0 <= k < |neg| ==> neg[k] in occ && neg[k] < |ca| && Lit(v, true) in ca[neg[k]])
    ensures (forall cr :: cr in occ ==> cr in pos || cr in neg) && Distinct(pos) && Distinct(neg)
  {
    forall k | 0 <= k < |pos| ensures pos[k] in occ && pos[k] < |ca| && Lit(v, false) in ca[pos[k]] { assert pos[k] in pos; }
    forall k | 0 <= k < |neg| ensures neg[k] in occ && neg[k] < |ca| && Lit(v, true) in ca[neg[k]] { assert neg[k] in neg; }
  }

  lemma EitherSign(c: Clause, v: nat)
    requires Mentions(c, v)
    ensures Lit(v, false) in c || Lit(v, true) in c
  {
    var l :| l in c && l.v == v;
    assert l == Lit(v, l.neg);
  }

  /** Entry `x` has been taken off the list of `v`, all other lists are as before. */
  ghost predicate OffOneList(os: seq<seq<nat>>, ps: seq<seq<nat>>, v: nat, x: nat) {
    v < |os| == |ps| && ps == os[v := ps[v]] && TakenOff(os[v], ps[v], x)
  }

  /** The entries before place `j` are still there. */
  lemma SamePlaces(os: seq<seq<nat>>, ps: seq<seq<nat>>, best: nat, j: nat, v: nat, d: nat)
    requires best < |os| && j < |os[best]| && os[best][j] == d && Distinct(os[best])
    requires ps == os || OffOneList(os, ps, v, d)
    ensures best < |ps| && j <= |ps[best]| && ps[best][..j] == os[best][..j]
    ensures ps == os || v != best ==> ps[best] == os[best]
  {
  }

  /** Clause `c` can do nothing to clause `d`. */
  ghost predicate NoUse(c: Clause, d: Clause) { !Within(c, d) && forall l :: !AllBut(c, d, l) }

  lemma SharesVar(c: Clause, d: Clause, v: nat)
    requires !NoUse(c, d) && exists k :: 0 <= k < |c| && c[k].v == v
    ensures Mentions(d, v)
  {
    var k :| 0 <= k < |c| && c[k].v == v;
    assert c[k] in c;
    if Within(c, d) {
      assert c[k] in d;
    } else {
      var l :| AllBut(c, d, l);
      assert if c[k] == l then Neg(l) in d && Neg(l).v == v else c[k] in d;
    }
  }

  /** What is left of a strengthened clause cannot be subsumed or strengthened by the same clause again. */
  lemma NoFurther(n: nat, c: Clause, d: Clause, l: Lit)
    requires ClauseOk(n, c) && ClauseOk(n, d) && AllBut(c, d, l)
    ensures NoUse(c, Without(d, Neg(l)))
  {
    var e := Without(d, Neg(l));
    forall k ensures k in e <==> k in d && k != Neg(l) { WithoutMember(d, Neg(l), k); }
    assert l !in d by { Opposite(n, d, l); }
    assert l in c && l !in e && Neg(l) !in e;
  }

  lemma Opposite(n: nat, d: Clause, l: Lit)
    requires ClauseOk(n, d) && Neg(l) in d
    ensures l !in d
  {
    var i :| 0 <= i < |d| && d[i] == Neg(l);
    forall j | 0 <= j < |d| ensures d[j] != l { if j != i { assert d[j].v != d[i].v; } }
  }

  /** The resolvents built so far are not too long. */
  ghost predicate ShortUpTo(ps: seq<Clause>, qs: seq<Clause>, v: nat, i: nat, j: nat, longest: int) {
    forall a, b :: 0 <= a < |ps| && 0 <= b < |qs| && (a < i || (a == i && b < j)) && !Tautology(ps[a], qs[b], v) ==>
      |Resolvent(ps[a], qs[b], v)| <= longest
  }

  lemma NoPairs(ps: seq<Clause>, qs: seq<Clause>, v: nat, longest: int)
    ensures Pairs(ps, qs, v, 0, 0) == 0 && ShortUpTo(ps, qs, v, 0, 0, longest)
  {
  }

  lemma NextPair(ps: seq<Clause>, qs: seq<Clause>, v: nat, i: nat, j: nat, longest: int)
    requires i < |ps| && j < |qs|
    ensures Pairs(ps, qs, v, i, j + 1) == Pairs(ps, qs, v, i, j) + (if Tautology(ps[i], qs[j], v) then 0 else 1)
    ensures ShortUpTo(ps, qs, v, i, j, longest) && (!Tautology(ps[i], qs[j], v) ==> |Resolvent(ps[i], qs[j], v)| <= longest) ==>
              ShortUpTo(ps, qs, v, i, j + 1, longest)
  {
  }

  lemma PairRow(ps: seq<Clause>, qs: seq<Clause>, v: nat, i: nat, longest: int)
    requires i < |ps|
    ensures Pairs(ps, qs, v, i + 1, 0) == Pairs(ps, qs, v, i, |qs|)
    ensures ShortUpTo(ps, qs, v, i, |qs|, longest) ==> ShortUpTo(ps, qs, v, i + 1, 0, longest)
  {
  }

  lemma AllPairs(ps: seq<Clause>, qs: seq<Clause>, v: nat, most: int, longest: int)
    requires Pairs(ps, qs, v, |ps|, 0) > 0 ==> Pairs(ps, qs, v, |ps|, 0) <= most
    requires longest != -1 ==> ShortUpTo(ps, qs, v, |ps|, 0, longest)
    ensures Bounded(ps, qs, v, most, longest)
  {
  }

  lemma OutOfBounds(ps: seq<Clause>, qs: seq<Clause>, v: nat, i: nat, j: nat, most: int, longest: int)
    requires i < |ps| && j < |qs| && !Tautology(ps[i], qs[j], v)
    requires Pairs(ps, qs, v, i, j) + 1 > most || (longest != -1 && |Resolvent(ps[i], qs[j], v)| > longest)
    ensures !Bounded(ps, qs, v, most, longest)
  {
    assert Pairs(ps, qs, v, i, j + 1) == Pairs(ps, qs, v, i, j) + 1;
    if j + 1 < |qs| || i + 1 < |ps| { PairsMono(ps, qs, v, i, j + 1); }
    PairsMono(ps, qs, v, i, j + 1);
  }

  lemma IntsNext(c: Clause, i: nat)
    requires i < |c|
    ensures Ints(c[..i + 1]) == Ints(c[..i]) + [ToInt(c[i])]
  {
  }

  lemma FrontPlace(n: nat, c: Clause, y: Lit, k: int) returns (at: nat)
    requires ClauseOk(n, c) && y in c
    requires if k < 0 then forall j :: 0 <= j < |c| ==> c[j].v != y.v else k < |c| && c[k].v == y.v
    ensures at == k && at < |c| && c[at] == y
  {
    var j :| 0 <= j < |c| && c[j] == y;
    at := j;
  }

  lemma IntsSwap(es: seq<nat>, c: Clause, k: nat)
    requires k < |c|
    ensures var all, first := es + Ints(c), |es|;
            all[first + k := all[first]][first := all[first + k]] == es + Ints(Swap(c, 0, k))
  {
  }

  /** Between `a` and `b` some variables of `vs` that are not frozen have been eliminated, and nothing else. */
  ghost predicate TakenFrom(a: seq<bool>, b: seq<bool>, vs: set<nat>, frozen: seq<bool>) {
    |a| == |b| && forall v :: 0 <= v < |a| && a[v] != b[v] ==> b[v] && v in vs && v < |frozen| && !frozen[v]
  }

  ghost function Members(order: seq<nat>): set<nat> { set v: nat | v in order }

  ghost function AllOf(rounds: seq<seq<nat>>): set<nat> {
    set order: seq<nat>, v: nat | order in rounds && v in order :: v
  }

  lemma NothingTaken(a: seq<bool>, vs: set<nat>, frozen: seq<bool>)
    ensures TakenFrom(a, a, vs, frozen)
  {
  }

  lemma OneTaken(a: seq<bool>, b: seq<bool>, c: seq<bool>, vs: set<nat>, frozen: seq<bool>, v: nat)
    requires TakenFrom(a, b, vs, frozen) && v < |b| && v in vs && v < |frozen| && !frozen[v] && (c == b || c == b[v := true])
    ensures TakenFrom(a, c, vs, frozen)
  {
  }

  lemma MoreTaken(a: seq<bool>, b: seq<bool>, c: seq<bool>, order: seq<nat>, rounds: seq<seq<nat>>, frozen: seq<bool>)
    requires TakenFrom(a, b, AllOf(rounds), frozen) && TakenFrom(b, c, Members(order), frozen) && order in rounds
    ensures TakenFrom(a, c, AllOf(rounds), frozen)
  {
  }

  lemma StillPreserved(orig: seq<Clause>, record: seq<Clause>, a: Store, b: Store, r: bool)
    requires Preserves(orig, record, a) && if r then SameSat(a, b) else NoSat(a)
    ensures if r then Preserves(orig, record, b) else forall m :: !SatAll(orig, m)
  {
    hide SatAll, Sat, Extend;
  }

  lemma KeptRefl(a: seq<LB>)
    ensures Kept(a, a)
  {
  }

  lemma KeptSize(a: seq<LB>, b: seq<LB>)
    requires Kept(a, b)
    ensures |a| == |b|
  {
  }

  lemma RecordedFronts(fs: seq<Clause>, y: Lit, ps: seq<Clause>, qs: seq<Clause>)
    requires if y.neg then Recorded(fs, qs, y) else Recorded(fs, ps, y)
    ensures Fronts(fs, y)
  {
  }

  /** Clauses have only been removed or shortened, and the shortened ones are queued. */
  ghost predicate Shrunk(a: Store, b: Store, queue: seq<int>) {
    && |a.ca| == |b.ca| && |a.dead| == |b.dead|
    && (forall cr :: b.Live(cr) ==> a.Live(cr))
    && forall cr :: b.Live(cr) && b.ca[cr] != a.ca[cr] ==> cr in queue && |b.ca[cr]| < |a.ca[cr]| && Within(b.ca[cr], a.ca[cr])
  }

  lemma ShrunkRefl(a: Store, queue: seq<int>)
    ensures Shrunk(a, a, queue)
  {
  }

  lemma ShrunkRemoved(a: Store, d: nat, queue: seq<int>)
    requires a.Live(d)
    ensures Shrunk(a, a.(dead := a.dead[d := true]), queue)
  {
  }

  lemma ShrunkStrengthened(a: Store, b: Store, d: nat, l: Lit, queue: seq<int>)
    requires a.Live(d) && |b.ca| == |a.ca| && |b.dead| == |a.dead| && d in queue && |Without(a.ca[d], l)| < |a.ca[d]|
    requires if |a.ca[d]| == 2 then b.ca == a.ca && b.dead == a.dead[d := true]
             else b.ca == a.ca[d := Without(a.ca[d], l)] && b.dead == a.dead
    ensures Shrunk(a, b, queue)
  {
    hide Without;
    forall k | k in Without(a.ca[d], l) ensures k in a.ca[d] { WithoutMember(a.ca[d], l, k); }
  }

  lemma ShrunkLive(a: Store, b: Store, queue: seq<int>, cr: int)
    requires Shrunk(a, b, queue)
    ensures b.Live(cr) ==> a.Live(cr)
  {
  }

  lemma ShrunkTrans(a: Store, b: Store, c: Store, q: seq<int>, queue: seq<int>)
    requires Shrunk(a, b, q) && Shrunk(b, c, queue) && q <= queue
    ensures Shrunk(a, c, queue)
  {
  }

  /** Clause `c` can do nothing to any clause but `cr` that was short enough at the start. */
  ghost predicate Exhausted(start: seq<Clause>, st: Store, longest: int, c: Clause, cr: int) {
    forall d :: st.Live(d) && d < |start| && d != cr && (longest == -1 || |start[d]| < longest) ==> NoUse(c, st.ca[d])
  }

  /** The clauses and values, and the variables that have been eliminated, at some time. */
  datatype Moment = Moment(st: Store, gone: seq<bool>)

  ghost predicate OneSideOf(st: Store, cs: seq<nat>, x: Lit) {
    Distinct(cs) && forall k :: 0 <= k < |cs| ==> st.Live(cs[k]) && x in st.ca[cs[k]]
  }

  /** All live clauses on `v`, split by sign. */
  ghost predicate Splits(st: Store, pos: seq<nat>, neg: seq<nat>, v: nat) {
    && OneSideOf(st, pos, Lit(v, false)) && OneSideOf(st, neg, Lit(v, true))
    && forall cr :: st.Live(cr) && Mentions(st.ca[cr], v) ==> cr in pos || cr in neg
  }

  ghost predicate Measured(st: Store, v: nat, pos: seq<nat>, neg: seq<nat>, grow: int, longest: int, within: bool) {
    && Splits(st, pos, neg, v)
    && (Bounded(ClausesOf(st.ca, pos), ClausesOf(st.ca, neg), v, |pos| + |neg| + grow, longest) <==> within)
  }

  /** The resolvents on `v` stay within the limits, or exceed them. */
  ghost predicate Fits(st: Store, v: nat, grow: int, longest: int, within: bool) {
    exists pos, neg :: Measured(st, v, pos, neg, grow, longest, within)
  }

  /** `v` has been eliminated because its resolvents stay within the limits, or nothing has happened because they do not. */
  ghost predicate VarTried(a: Moment, b: Moment, v: nat, grow: int, longest: int) {
    if b == a then Fits(a.st, v, grow, longest, false)
    else v < |a.gone| && b.gone == a.gone[v := true] && Fits(a.st, v, grow, longest, true)
  }

  ghost predicate OneTried(a: Moment, b: Moment, v: nat, frozen: seq<bool>, grow: int, longest: int) {
    && v < |a.gone| && v < |a.st.assigns| && v < |frozen|
    && if a.gone[v] || a.st.assigns[v] != LUndef || frozen[v] then b == a else VarTried(a, b, v, grow, longest)
  }

  /** All variables have been tried, one after the other. */
  ghost predicate AllTried(a: Moment, b: Moment, order: seq<nat>, frozen: seq<bool>, grow: int, longest: int)
    decreases |order|
  {
    if order == [] then b == a
    else
      var n := |order| - 1;
      exists mid :: AllTried(a, mid, order[..n], frozen, grow, longest) && OneTried(mid, b, order[n], frozen, grow, longest)
  }

  /** Same models, and nothing eliminated yet. */
  ghost predicate Beforehand(a: Moment, b: Moment) { b.gone == a.gone && SameSat(a.st, b.st) }

  ghost predicate RoundDone(a: Moment, b: Moment, order: seq<nat>, frozen: seq<bool>, grow: int, longest: int) {
    exists mid :: Beforehand(a, mid) && AllTried(mid, b, order, frozen, grow, longest)
  }

  lemma RoundHere(a: Moment, mid: Moment, b: Moment, order: seq<nat>, frozen: seq<bool>, grow: int, longest: int)
    requires Beforehand(a, mid) && AllTried(mid, b, order, frozen, grow, longest)
    ensures RoundDone(a, b, order, frozen, grow, longest)
  {
  }

  ghost predicate RoundsDone(a: Moment, b: Moment, rounds: seq<seq<nat>>, frozen: seq<bool>, grow: int, longest: int)
    decreases |rounds|
  {
    if rounds == [] then b == a
    else
      var n := |rounds| - 1;
      exists mid :: RoundsDone(a, mid, rounds[..n], frozen, grow, longest) && RoundDone(mid, b, rounds[n], frozen, grow, longest)
  }

  /** Propagation, then all rounds. */
  ghost predicate Rounds(a: Moment, b: Moment, rounds: seq<seq<nat>>, frozen: seq<bool>, grow: int, longest: int) {
    exists mid :: Beforehand(a, mid) && RoundsDone(mid, b, rounds, frozen, grow, longest)
  }

  /** What was queued still is, and so is every clause from place `n` on. */
  ghost predicate AllQueued(n: nat, ca: seq<Clause>, before: seq<int>, queue: seq<int>) {
    before <= queue && forall cr :: n <= cr < |ca| ==> cr in queue
  }

  lemma NothingQueued(ca: seq<Clause>, queue: seq<int>)
    ensures AllQueued(|ca|, ca, queue, queue)
  {
  }

  lemma QueuedOn(n: nat, ca: seq<Clause>, ca': seq<Clause>, q0: seq<int>, q: seq<int>, q': seq<int>)
    requires AllQueued(n, ca, q0, q) && AllQueued(|ca|, ca', q, q')
    ensures AllQueued(n, ca', q0, q')
  {
    forall cr | n <= cr < |ca'| ensures cr in q' { assert cr < |ca| ==> cr in q; }
  }

  /** The clauses queued before or added since can do nothing more to the other clauses below the size limit. */
  ghost predicate UsedUp(before: seq<Clause>, queue: seq<int>, st: Store, longest: int) {
    exists mid: seq<Clause> :: NewExhausted(before, mid, queue, st, longest)
  }

  ghost predicate NewExhausted(before: seq<Clause>, mid: seq<Clause>, queue: seq<int>, st: Store, longest: int) {
    && before <= mid && |mid| == |st.ca|
    && forall cr :: st.Live(cr) && (cr in queue || cr >= |before|) ==> Exhausted(mid, st, longest, st.ca[cr], cr)
  }

  lemma NewSubsumed(before: seq<Clause>, mid: seq<Clause>, first: seq<int>, queue: seq<int>, st: Store, longest: int)
    requires before <= mid && |mid| == |st.ca| && AllQueued(|before|, mid, first, queue)
    requires forall cr :: st.Live(cr) && cr in queue ==> Exhausted(mid, st, longest, st.ca[cr], cr)
    ensures UsedUp(before, first, st, longest)
  {
    hide Exhausted;
    assert NewExhausted(before, mid, first, st, longest);
  }

  /** Of the clauses queued at the start or shortened since, those not in the queue are exhausted. */
  ghost predicate WorkedOff(start: seq<Clause>, st: Store, longest: int, first: seq<int>, queue: seq<int>) {
    && |start| == |st.ca| && (forall cr :: st.Live(cr) ==> st.ca[cr] == start[cr] || |st.ca[cr]| < |start[cr]|)
    && forall cr :: st.Live(cr) && (cr in first || st.ca[cr] != start[cr]) && cr !in queue ==>
         Exhausted(start, st, longest, st.ca[cr], cr)
  }

  /** What a completed backward subsumption makes of store `a` with the clauses in `queue` and the values from place `from`
      of the trail on. */
  ghost predicate AfterSubsumption(a: Store, queue: seq<int>, from: nat, longest: int, b: Store, trail: seq<Lit>) {
    && SameSat(a, b) && StoreOk(b) && |a.ca| == |b.ca| && |a.assigns| == |b.assigns| && OnTrail(b.assigns, trail)
    && (forall cr :: b.Live(cr) ==> b.ca[cr] == a.ca[cr] || |b.ca[cr]| < |a.ca[cr]|)
    && (forall cr :: b.Live(cr) && cr in queue ==> Exhausted(a.ca, b, longest, b.ca[cr], cr))
    && forall k :: from <= k < |trail| ==> Exhausted(a.ca, b, longest, [trail[k]], -1)
  }

  ghost predicate CanBeSubsumed(a: Store, queue: seq<int>, from: nat, longest: int) {
    exists b, trail :: AfterSubsumption(a, queue, from, longest, b, trail)
  }

  /** Root propagation beforehand, and more clauses in the queue, make no difference. */
  lemma SubsumedBefore(a: Store, a': Store, queue: seq<int>, queue': seq<int>, from: nat, longest: int)
    requires a'.ca == a.ca && |a'.assigns| == |a.assigns| && SameSat(a, a') && queue <= queue'
    requires CanBeSubsumed(a', queue', from, longest)
    ensures CanBeSubsumed(a, queue, from, longest)
  {
    hide SameSat, StoreOk, OnTrail, Exhausted;
    var b, trail :| AfterSubsumption(a', queue', from, longest, b, trail);
    SameTrans(a, a', b);
    assert AfterSubsumption(a, queue, from, longest, b, trail);
  }

  ghost predicate UnitsWorkedOff(start: seq<Clause>, st: Store, longest: int, trail: seq<Lit>, from: nat, to: nat) {
    forall k :: from <= k < to && k < |trail| ==> Exhausted(start, st, longest, [trail[k]], -1)
  }

  lemma WorkedOffStart(st: Store, longest: int, queue: seq<int>, trail: seq<Lit>, at: nat)
    ensures UnitsWorkedOff(st.ca, st, longest, trail, at, at)
    ensures WorkedOff(st.ca, st, longest, queue, queue)
  {
    hide Exhausted;
  }

  lemma WorkedOffEnd(start: seq<Clause>, st: Store, longest: int, first: seq<int>)
    requires WorkedOff(start, st, longest, first, [])
    ensures forall cr :: st.Live(cr) && (cr in first || st.ca[cr] != start[cr]) ==> Exhausted(start, st, longest, st.ca[cr], cr)
    ensures forall cr :: st.Live(cr) ==> st.ca[cr] == start[cr] || |st.ca[cr]| < |start[cr]|
  {
    hide Exhausted;
  }

  /** Shortening a clause never brings it back into reach. */
  lemma ExhaustedStays(start: seq<Clause>, a: Store, b: Store, longest: int, queue: seq<int>, c: Clause, cr: int)
    requires Shrunk(a, b, queue) && Exhausted(start, a, longest, c, cr)
    ensures Exhausted(start, b, longest, c, cr)
  {
    forall d | b.Live(d) && d < |start| && d != cr && (longest == -1 || |start[d]| < longest) ensures NoUse(c, b.ca[d]) {
      NoUseStays(c, a.ca[d], b.ca[d]);
    }
  }

  lemma NoUseStays(c: Clause, d: Clause, e: Clause)
    requires NoUse(c, d) && (e == d || Within(e, d))
    ensures NoUse(c, e)
  {
    if Within(c, e) { assert Within(c, d); }
    forall l ensures !AllBut(c, e, l) { if AllBut(c, e, l) { assert AllBut(c, d, l); } }
  }

  /** One entry `x` of the queue has been taken out and exhausted. */
  lemma WorkedOffStep(start: seq<Clause>, a: Store, b: Store, longest: int, first: seq<int>, q: seq<int>, queue: seq<int>, x: int)
    requires WorkedOff(start, a, longest, first, q) && Shrunk(a, b, queue) && forall y :: y in q ==> y == x || y in queue
    requires b.Live(x) ==> Exhausted(start, b, longest, b.ca[x], x)
    ensures WorkedOff(start, b, longest, first, queue)
  {
    hide Exhausted, Within;
    forall cr | b.Live(cr) && (cr in first || b.ca[cr] != start[cr])
      ensures cr in queue || Exhausted(start, b, longest, b.ca[cr], cr)
    {
      if cr != x && cr !in queue { ExhaustedStays(start, a, b, longest, queue, a.ca[cr], cr); }
    }
  }

  lemma UnitsStay(start: seq<Clause>, a: Store, b: Store, longest: int, queue: seq<int>, known: seq<Lit>, trail: seq<Lit>,
                  from: nat, to: nat)
    requires to <= |known| && known <= trail
    requires UnitsWorkedOff(start, a, longest, known, from, to) && Shrunk(a, b, queue)
    ensures UnitsWorkedOff(start, b, longest, trail, from, to)
  {
    hide Exhausted, Shrunk;
    forall k | from <= k < to ensures Exhausted(start, b, longest, [trail[k]], -1) {
      ExhaustedStays(start, a, b, longest, queue, [known[k]], -1);
    }
  }

  lemma UnitsEnd(start: seq<Clause>, st: Store, longest: int, trail: seq<Lit>, from: nat)
    requires UnitsWorkedOff(start, st, longest, trail, from, |trail|)
    ensures forall k :: from <= k < |trail| ==> Exhausted(start, st, longest, [trail[k]], -1)
  {
    hide Exhausted;
  }

  lemma HeadOrTail(q: seq<int>, x: int, queue: seq<int>)
    requires q != [] ==> x == q[0] && q[1..] <= queue
    ensures forall y :: y in q ==> y == x || y in queue
  {
    if q != [] { assert q == [q[0]] + q[1..]; }
  }

  lemma KeptTrans(a: seq<LB>, b: seq<LB>, c: seq<LB>)
    requires Kept(a, b)
    ensures Kept(b, c) ==> Kept(a, c)
  {
  }

  lemma SupportFollows(st: Store, cr: int, c: Clause)
    requires |c| > 0 && (cr >= 0 ==> st.Live(cr) && st.ca[cr] == c)
    requires cr < 0 ==> |c| == 1 && c[0].v < |st.assigns| && Value(st.assigns, c[0]) == LTrue
    ensures Follows(st, c)
  {
    forall m | Sat(st, m) ensures SatClause(m, c) {
      if cr < 0 {
        ValueForced(st, c[0], m);
        assert c[0] in c;
      }
    }
  }

  lemma SubsumedFollows(st: Store, d: nat, c: Clause)
    requires st.Live(d) && Within(c, st.ca[d]) && Follows(st.(dead := st.dead[d := true]), c)
    ensures SameSat(st, st.(dead := st.dead[d := true]))
  {
    hide Sat, SatClause, Within;
    var u := st.(dead := st.dead[d := true]);
    forall m | Sat(u, m) ensures SatClause(m, st.ca[d]) { SubsumedSound(m, c, st.ca[d]); }
    RemoveSame(st, d);
  }

  lemma StrengthenFollows(st: Store, c: Clause, d: nat, l: Lit)
    requires StoreOk(st) && st.Live(d) && ClauseOk(|st.assigns|, c) && AllBut(c, st.ca[d], l) && Follows(st, c)
    ensures Neg(l) in st.ca[d] && forall m :: Sat(st, m) ==> SatClause(m, Without(st.ca[d], Neg(l)))
  {
    hide SatClause, ClauseOk, Without;
    forall m | Sat(st, m) ensures SatClause(m, Without(st.ca[d], Neg(l))) {
      StrengthenSound(m, |st.assigns|, c, st.ca[d], l);
    }
  }

  ghost function ClausesOf(ca: seq<Clause>, cs: seq<nat>): seq<Clause>
    requires forall k :: 0 <= k < |cs| ==> cs[k] < |ca|
  {
    seq(|cs|, k requires 0 <= k < |cs| => ca[cs[k]])
  }

  /** The occurrence lists `os` with `cr` added for every literal of `c`. */
  ghost predicate Listed(os: seq<seq<nat>>, ps: seq<seq<nat>>, c: Clause, cr: nat) {
    && |ps| == |os|
    && forall v: nat :: v < |os| ==> ps[v] == if Mentions(c, v) then os[v] + [cr] else os[v]
  }

  lemma ListOneMore(os: seq<seq<nat>>, ps: seq<seq<nat>>, c: Clause, i: nat, cr: nat, n: nat)
    requires i < |c| && Listed(os, ps, c[..i], cr) && ClauseOk(n, c) && c[i].v < |ps|
    ensures Listed(os, ps[c[i].v := ps[c[i].v] + [cr]], c[..i + 1], cr)
  {
    assert c[..i + 1] == c[..i] + [c[i]];
    forall v: nat ensures Mentions(c[..i + 1], v) <==> Mentions(c[..i], v) || v == c[i].v {
      if v == c[i].v { assert c[i] in c[..i + 1]; }
      if Mentions(c[..i], v) { var l :| l in c[..i] && l.v == v; assert l in c[..i + 1]; }
    }
    assert !Mentions(c[..i], c[i].v);
  }

  lemma VarInRange(n: nat, c: Clause, i: nat)
    requires ClauseOk(n, c) && i < |c|
    ensures c[i].v < n
  {
  }

  lemma EntriesNew(st: Store, occurs: seq<seq<nat>>)
    requires OccursOk(st, occurs)
    ensures forall v: nat :: v < |occurs| ==> |st.ca| !in occurs[v]
    ensures Listed(occurs, occurs, [], |st.ca|)
  {
    forall v: nat | v < |occurs| ensures |st.ca| !in occurs[v] {
      forall b: nat | b in occurs[v] ensures b < |st.ca| { assert EntryOk(st, v, b); }
    }
  }

  lemma AttachOccurs(st: Store, os: seq<seq<nat>>, ps: seq<seq<nat>>, c: Clause)
    requires OccursOk(st, os) && |st.dead| == |st.ca|
    requires Listed(os, ps, c, |st.ca|) && forall v: nat :: v < |os| ==> |st.ca| !in os[v]
    ensures OccursOk(st.(ca := st.ca + [c], dead := st.dead + [false]), ps)
  {
    hide Mentions;
    var u := st.(ca := st.ca + [c], dead := st.dead + [false]);
    forall v: nat, b: nat | v < |ps| && b in ps[v] ensures EntryOk(u, v, b) {
      if b != |st.ca| { assert EntryOk(st, v, b); }
    }
    forall b, l | u.Live(b) && l in u.ca[b] && l.v < |ps| ensures b in ps[l.v] {
      if b == |st.ca| { MentionsOwn(c, l); }
    }
  }

  lemma MentionsOwn(c: Clause, l: Lit)
    requires l in c
    ensures Mentions(c, l.v)
  {
  }

  lemma AttachShape(st: Store, os: seq<seq<nat>>, ps: seq<seq<nat>>, eliminated: seq<bool>, abst: seq<bv32>, c: Clause, n: nat)
    requires StoreOk(st) && OccursOk(st, os) && InUse(st, eliminated) && SignaturesOk(st, abst) && n == |st.assigns|
    requires |c| >= 2 && ClauseOk(n, c) && forall l :: l in c ==> l.v < |eliminated| && !eliminated[l.v]
    requires Listed(os, ps, c, |st.ca|) && forall v: nat :: v < |os| ==> |st.ca| !in os[v]
    ensures var u := st.(ca := st.ca + [c], dead := st.dead + [false]);
            StoreOk(u) && OccursOk(u, ps) && InUse(u, eliminated) && SignaturesOk(u, abst + [Abs(c)])
  {
    hide ClauseOk, Abs, OccursOk, Listed;
    var u := st.(ca := st.ca + [c], dead := st.dead + [false]);
    forall b | u.Live(b) ensures if b == |st.ca| then u.ca[b] == c else st.Live(b) && u.ca[b] == st.ca[b] {}
    AttachOccurs(st, os, ps, c);
  }

  /** A clause with a literal that is true, or with both signs of a variable, says nothing. */
  lemma AlreadyTrue(st: Store, ps: Clause, sorted: Clause)
    requires Same(sorted, ps) && forall l :: l in ps ==> l.v < |st.assigns|
    requires exists l :: l in sorted && (Value(st.assigns, l) == LTrue || Neg(l) in sorted)
    ensures forall m :: Sat(st, m) <==> Sat(st, m) && SatClause(m, ps)
  {
    var l :| l in sorted && (Value(st.assigns, l) == LTrue || Neg(l) in sorted);
    assert l in ps && (Neg(l) in sorted ==> Neg(l) in ps);
    forall m | Sat(st, m) ensures SatClause(m, ps) {
      ValueForced(st, l, m);
      assert Makes(m, l) || Makes(m, Neg(l));
    }
  }

  lemma KeptMeaning(st: Store, ps: Clause, sorted: Clause, kept: Clause, eliminated: seq<bool>)
    requires Same(sorted, ps) && Ascending(kept) && |eliminated| == |st.assigns|
    requires forall l :: l in ps ==> l.v < |eliminated| && !eliminated[l.v]
    requires (forall l :: l in kept ==> l in sorted) && forall l :: l in sorted ==> l in kept || Value(st.assigns, l) == LFalse
    ensures ClauseOk(|st.assigns|, kept) && forall l :: l in kept ==> l.v < |eliminated| && !eliminated[l.v]
    ensures forall m :: Sat(st, m) ==> (SatClause(m, ps) <==> SatClause(m, kept))
  {
    AscendingOk(|st.assigns|, kept);
    forall m | Sat(st, m) ensures SatClause(m, ps) <==> SatClause(m, kept) {
      if SatClause(m, ps) {
        var l :| l in ps && Makes(m, l);
        ValueForced(st, l, m);
      }
    }
  }

  /** A clause of at least two different variables without values. */
  ghost predicate OpenClause(assigns: seq<LB>, c: Clause) {
    |c| >= 2 && ClauseOk(|assigns|, c) && forall l :: l in c ==> Value(assigns, l) == LUndef
  }

  /** Clause `c` has been added as it is, but for the order of its literals. */
  ghost predicate Joined(a: Store, b: Store, c: Clause) {
    && |b.ca| == |a.ca| + 1 && b.ca[..|a.ca|] == a.ca && Same(b.ca[|a.ca|], c) && |b.ca[|a.ca|]| == |c|
    && b.dead == a.dead + [false] && b.assigns == a.assigns
  }

  lemma NotOpen(assigns: seq<LB>, ps: Clause, sorted: Clause)
    requires Same(sorted, ps) && exists l :: l in sorted && (Value(assigns, l) == LTrue || Neg(l) in sorted)
    ensures !OpenClause(assigns, ps)
  {
    var l :| l in sorted && (Value(assigns, l) == LTrue || Neg(l) in sorted);
    assert l in ps && (Neg(l) in sorted ==> Neg(l) in ps);
    if OpenClause(assigns, ps) { Opposite(|assigns|, ps, Neg(l)); }
  }

  lemma KeptWhole(st: Store, ps: Clause, sorted: Clause, kept: Clause)
    requires Same(sorted, ps) && ClauseOk(|st.assigns|, kept) && |st.dead| == |st.ca|
    requires (forall l :: l in kept ==> l in sorted) && forall l :: l in sorted ==> l in kept || Value(st.assigns, l) == LFalse
    ensures OpenClause(st.assigns, ps) ==> |kept| >= 2
    ensures OpenClause(st.assigns, ps) ==> Joined(st, st.(ca := st.ca + [kept], dead := st.dead + [false]), ps)
  {
    if OpenClause(st.assigns, ps) {
      forall l ensures l in kept <==> l in ps { assert l in sorted <==> l in ps; }
      SameVars(ps, kept);
      SameVars(kept, ps);
      WithinSize(|st.assigns|, ps, kept);
      WithinSize(|st.assigns|, kept, ps);
    }
  }

  lemma SameVars(c: Clause, d: Clause)
    requires forall l :: l in c ==> l in d
    ensures VarsWithin(c, d)
  {
    forall k | 0 <= k < |c| ensures HasVar(d, c[k].v) {
      assert c[k] in d;
      var j :| 0 <= j < |d| && d[j] == c[k];
    }
  }

  lemma SinglesSat(c: Clause)
    requires |c| == 1
    ensures forall m :: SatClause(m, c) <==> Makes(m, c[0])
  {
    forall m ensures SatClause(m, c) <==> Makes(m, c[0]) { SingleSat(m, c); }
  }

  lemma ThenSame(st: Store, mid: Store, fin: Store, c: Clause, r: bool)
    requires forall m :: Sat(mid, m) <==> Sat(st, m) && SatClause(m, c)
    requires if r then SameSat(mid, fin) else NoSat(mid)
    ensures r ==> forall m :: Sat(fin, m) <==> Sat(st, m) && SatClause(m, c)
    ensures !r ==> forall m :: Sat(st, m) ==> !SatClause(m, c)
  {
    hide Sat, SatClause;
    if !r {
      forall m | Sat(st, m) ensures !SatClause(m, c) { assert !Sat(mid, m); }
    }
  }

  lemma AppendAll(st: Store, c: Clause)
    requires |st.dead| == |st.ca|
    ensures forall m :: Sat(st.(ca := st.ca + [c], dead := st.dead + [false]), m) <==> Sat(st, m) && SatClause(m, c)
  {
    forall m ensures Sat(st.(ca := st.ca + [c], dead := st.dead + [false]), m) <==> Sat(st, m) && SatClause(m, c) {
      AppendMeaning(st, c, m);
    }
  }

  lemma SingleSat(m: Model, c: Clause)
    requires |c| == 1
    ensures SatClause(m, c) <==> Makes(m, c[0])
  {
    assert c[0] in c;
  }

  /** A clause that is removed while its remaining literal follows. */
  lemma PairMeaning(st: Store, cr: nat, c: Clause)
    requires st.Live(cr) && |c| == 1 && c[0] in st.ca[cr] && forall m :: Sat(st, m) ==> SatClause(m, c)
    ensures forall m :: Sat(st, m) <==> Sat(st.(dead := st.dead[cr := true]), m) && Makes(m, c[0])
  {
    hide Sat;
    forall m ensures Sat(st, m) <==> Sat(st.(dead := st.dead[cr := true]), m) && Makes(m, c[0]) {
      RemoveMeaning(st, cr, m);
      SingleSat(m, c);
    }
  }

  lemma PairDone(st: Store, mid: Store, st2: Store, l: Lit)
    requires forall m :: Sat(st, m) <==> Sat(mid, m) && Makes(m, l)
    requires forall m :: Sat(st2, m) <==> Sat(mid, m) && Makes(m, l)
    ensures SameSat(st, st2)
  {
  }

  lemma PairNone(st: Store, mid: Store, l: Lit)
    requires (forall m :: Sat(st, m) <==> Sat(mid, m) && Makes(m, l)) && forall m :: Sat(mid, m) ==> !Makes(m, l)
    ensures NoSat(st)
  {
  }

  /** A clause replaced by a part of it that follows. */
  lemma LongMeaning(st: Store, cr: nat, c: Clause, l: Lit)
    requires st.Live(cr) && c == Without(st.ca[cr], l) && forall m :: Sat(st, m) ==> SatClause(m, c)
    ensures SameSat(st, st.(ca := st.ca[cr := c]))
  {
    hide Sat, Without;
    forall m ensures Sat(st, m) <==> Sat(st.(ca := st.ca[cr := c]), m) {
      ReplaceMeaning(st, cr, c, m);
      RemoveMeaning(st, cr, m);
      if SatClause(m, c) {
        var k :| k in c && Makes(m, k);
        WithoutMember(st.ca[cr], l, k);
      }
    }
  }

  lemma LongShape(st: Store, occurs: seq<seq<nat>>, eliminated: seq<bool>, abst: seq<bv32>, cr: nat, l: Lit, c: Clause, cs: seq<nat>)
    requires StoreOk(st) && OccursOk(st, occurs) && InUse(st, eliminated) && SignaturesOk(st, abst) && st.Live(cr)
    requires l in st.ca[cr] && c == Without(st.ca[cr], l) && |c| >= 2 && ClauseOk(|st.assigns|, c) && l.v < |occurs|
    requires Distinct(cs) && forall y :: y in cs <==> y in occurs[l.v] && y != cr
    ensures var u := st.(ca := st.ca[cr := c]);
            && StoreOk(u) && OccursOk(u, occurs[l.v := cs]) && InUse(u, eliminated) && SignaturesOk(u, abst[cr := Abs(c)])
  {
    hide ClauseOk, Distinct, Abs, Without, Mentions;
    var u := st.(ca := st.ca[cr := c]);
    assert forall b :: u.Live(b) <==> st.Live(b);
    forall k ensures k in c <==> k in st.ca[cr] && k != l { WithoutMember(st.ca[cr], l, k); }
    OtherVars(|st.assigns|, st.ca[cr], l, c);
    forall v: nat | v != l.v && Mentions(st.ca[cr], v) ensures Mentions(c, v) { StillMentions(st.ca[cr], l, c, v); }
  }

  lemma OtherVars(n: nat, d: Clause, l: Lit, c: Clause)
    requires ClauseOk(n, d) && l in d && forall k :: k in c <==> k in d && k != l
    ensures forall k :: k in c ==> k.v != l.v
  {
    forall k | k in c ensures k.v != l.v {
      var i :| 0 <= i < |d| && d[i] == k;
      var j :| 0 <= j < |d| && d[j] == l;
    }
  }

  lemma StillMentions(d: Clause, l: Lit, c: Clause, v: nat)
    requires Mentions(d, v) && v != l.v && forall k :: k in c <==> k in d && k != l
    ensures Mentions(c, v)
  {
    var k :| k in d && k.v == v;
    assert k in c;
  }

  lemma ShorterClause(st: Store, cr: nat, l: Lit)
    requires StoreOk(st) && st.Live(cr) && l in st.ca[cr]
    ensures ClauseOk(|st.assigns|, Without(st.ca[cr], l)) && |Without(st.ca[cr], l)| == |st.ca[cr]| - 1
  {
    WithoutOk(|st.assigns|, st.ca[cr], l);
  }

  lemma RemoveShape(st: Store, occurs: seq<seq<nat>>, eliminated: seq<bool>, abst: seq<bv32>, cr: nat)
    requires StoreOk(st) && OccursOk(st, occurs) && InUse(st, eliminated) && SignaturesOk(st, abst) && st.Live(cr)
    ensures var u := st.(dead := st.dead[cr := true]);
            StoreOk(u) && OccursOk(u, occurs) && InUse(u, eliminated) && SignaturesOk(u, abst)
  {
    hide ClauseOk, Distinct, Mentions, Abs;
    var u := st.(dead := st.dead[cr := true]);
    assert forall b :: u.Live(b) ==> st.Live(b);
  }

  function Undeleted(cs: seq<nat>, dead: seq<bool>): seq<nat> {
    if cs == [] then []
    else
      var cr := cs[|cs| - 1];
      Undeleted(cs[..|cs| - 1], dead) + (if cr < |dead| && dead[cr] then [] else [cr])
  }

  lemma UndeletedNext(cs: seq<nat>, i: nat, dead: seq<bool>)
    requires i < |cs|
    ensures Undeleted(cs[..i + 1], dead) == Undeleted(cs[..i], dead) + (if cs[i] < |dead| && dead[cs[i]] then [] else [cs[i]])
  {
    assert cs[..i + 1][..i] == cs[..i];
  }

  lemma {:induction false} UndeletedMember(cs: seq<nat>, dead: seq<bool>, cr: nat)
    ensures cr in Undeleted(cs, dead) <==> cr in cs && !(cr < |dead| && dead[cr])
  {
    if cs != [] { UndeletedMember(cs[..|cs| - 1], dead, cr); }
  }

  lemma {:induction false} UndeletedDistinct(cs: seq<nat>, dead: seq<bool>)
    requires Distinct(cs)
    ensures Distinct(Undeleted(cs, dead))
  {
    if cs != [] {
      var n := |cs| - 1;
      UndeletedDistinct(cs[..n], dead);
      var ds := Undeleted(cs[..n], dead);
      forall j | 0 <= j < |ds| ensures ds[j] != cs[n] { UndeletedMember(cs[..n], dead, ds[j]); }
    }
  }

  lemma CleanShape(st: Store, occurs: seq<seq<nat>>, v: nat)
    requires OccursOk(st, occurs) && v < |occurs| && |st.dead| == |st.ca|
    ensures var os := occurs[v := Undeleted(occurs[v], st.dead)];
            OccursOk(st, os) && forall cr :: cr in os[v] ==> st.Live(cr) && Mentions(st.ca[cr], v)
  {
    hide Mentions, Undeleted;
    var cs := Undeleted(occurs[v], st.dead);
    UndeletedDistinct(occurs[v], st.dead);
    forall cr: nat ensures cr in cs <==> cr in occurs[v] && !(cr < |st.dead| && st.dead[cr]) { UndeletedMember(occurs[v], st.dead, cr); }
  }

  lemma AssignShape(st: Store, occurs: seq<seq<nat>>, eliminated: seq<bool>, abst: seq<bv32>, trail: seq<Lit>, l: Lit)
    requires StoreOk(st) && OccursOk(st, occurs) && InUse(st, eliminated) && SignaturesOk(st, abst) && TrailTrue(st.assigns, trail)
    requires OnTrail(st.assigns, trail)
    requires l.v < |st.assigns| && st.assigns[l.v] == LUndef && !eliminated[l.v]
    ensures var u := st.(assigns := st.assigns[l.v := FromBool(!l.neg)]);
            && StoreOk(u) && OccursOk(u, occurs) && InUse(u, eliminated) && SignaturesOk(u, abst)
            && TrailTrue(u.assigns, trail + [l]) && OnTrail(u.assigns, trail + [l])
  {
    hide ClauseOk, Distinct, Mentions, Abs;
    var u := st.(assigns := st.assigns[l.v := FromBool(!l.neg)]);
    assert forall cr :: st.Live(cr) <==> u.Live(cr);
    forall k | k in trail + [l] ensures Value(u.assigns, k) == LTrue {
      if k in trail { assert Value(st.assigns, k) == LTrue; }
    }
    forall v | 0 <= v < |u.assigns| && u.assigns[v] != LUndef ensures exists k :: 0 <= k <= |trail| && (trail + [l])[k].v == v {
      if v == l.v {
        assert (trail + [l])[|trail|].v == v;
      } else {
        var k :| 0 <= k < |trail| && trail[k].v == v;
        assert (trail + [l])[k].v == v;
      }
    }
  }
}
