/** Why a learnt clause follows: resolution along the trail, and redundant literals. */
module Learning {
  import opened Lbools
  import opened Literals
  import opened Trails
  import opened Watching
  import opened Meaning

  /** The model makes the literal at place `k` true. */
  ghost predicate Made(t: Trail, m: Model, k: nat) {
    k < |t.lits| && Makes(m, t.lits[k])
  }

  /** The model makes every marked variable's literal on the trail true. */
  ghost predicate Blind(t: Trail, seen: seq<nat>, m: Model)
    requires |seen| == |t.pos|
  {
    forall v :: 0 <= v < |seen| && seen[v] == 1 ==> Made(t, m, t.pos[v])
  }

  /** No model of the problem makes all marked literals true. */
  ghost predicate Refuted(t: Trail, d: Db, seen: seq<nat>)
    requires |seen| == |t.pos|
  {
    forall m :: Problem(t, d, m) ==> !Blind(t, seen, m)
  }

  /** A literal that is false on the trail is false in a model that agrees with the trail on its variable. */
  lemma FalseWhenMade(t: Trail, m: Model, l: Lit)
    requires TrailOk(t) && t.Val(l) == LFalse && Made(t, m, t.pos[l.v])
    ensures !Makes(m, l)
  {
    assert t.lits[t.pos[l.v]] == Neg(l);
  }

  /** A model that makes all other literals of a reason false makes the implied literal true. */
  lemma ReasonForces(t: Trail, d: Db, k: nat, m: Model)
    requires TrailOk(t) && ReasonsOk(t, d) && Learned(t, d) && Problem(t, d, m) && k < |t.lits|
    requires ReasonAt(t, d, k) && t.reason[t.lits[k].v] >= 0
    requires forall j :: 1 <= j < |d.ca[t.reason[t.lits[k].v]]| ==> Made(t, m, t.pos[d.ca[t.reason[t.lits[k].v]][j].v])
    ensures Made(t, m, k)
  {
    hide Learned, Problem;
    var r := t.reason[t.lits[k].v];
    var c := d.ca[r];
    Holds(t, d, m, r);
    var l :| l in c && Makes(m, l);
    var j :| 0 <= j < |c| && c[j] == l;
    if j > 0 { FalseWhenMade(t, m, l); }
  }

  lemma Holds(t: Trail, d: Db, m: Model, cr: int)
    requires Learned(t, d) && Problem(t, d, m) && d.Live(cr)
    ensures SatClause(m, d.ca[cr])
  {
  }

  lemma RootMade(t: Trail, d: Db, m: Model, k: nat)
    requires Problem(t, d, m) && k < t.Roots() && k < |t.lits|
    ensures Made(t, m, k)
  {
  }

  /** From place `from` on, every literal of the clause is fixed on level 0 or marked. */
  ghost predicate Absorbed(t: Trail, seen: seq<nat>, c: Clause, from: nat) {
    forall j :: from <= j < |c| ==>
      c[j].v < |t.pos| && c[j].v < |seen| && (t.pos[c[j].v] < t.Roots() || seen[c[j].v] == 1)
  }

  /** Marking the literals of the conflict clause. */
  lemma ConflictRefuted(t: Trail, d: Db, seen: seq<nat>, cr: int)
    requires TrailOk(t) && Learned(t, d) && |seen| == |t.pos| && d.Live(cr) && Absorbed(t, seen, d.ca[cr], 0)
    requires forall j :: 0 <= j < |d.ca[cr]| ==> t.Val(d.ca[cr][j]) == LFalse
    ensures Refuted(t, d, seen)
  {
    hide Learned, Problem, Limits, Levels;
    forall m | Problem(t, d, m) ensures !Blind(t, seen, m) {
      if Blind(t, seen, m) {
        Holds(t, d, m, cr);
        var l :| l in d.ca[cr] && Makes(m, l);
        var j :| 0 <= j < |d.ca[cr]| && d.ca[cr][j] == l;
        if t.pos[l.v] < t.Roots() { RootMade(t, d, m, t.pos[l.v]); }
        FalseWhenMade(t, m, l);
      }
    }
  }

  /** Resolving on the literal at place `k` with its reason: its mark is replaced by marks on the rest of the reason. */
  lemma ResolveRefuted(t: Trail, d: Db, before: seq<nat>, seen: seq<nat>, k: nat)
    requires TrailOk(t) && ReasonsOk(t, d) && Learned(t, d) && |before| == |seen| == |t.pos| && k < |t.lits|
    requires Refuted(t, d, before) && t.reason[t.lits[k].v] >= 0 && ReasonAt(t, d, k)
    requires Absorbed(t, seen, d.ca[t.reason[t.lits[k].v]], 1)
    requires forall v :: 0 <= v < |seen| && before[v] == 1 && v != t.lits[k].v ==> seen[v] == 1
    ensures Refuted(t, d, seen)
  {
    hide Learned, Problem, Limits, Levels, ReasonsOk;
    var c := d.ca[t.reason[t.lits[k].v]];
    forall m | Problem(t, d, m) ensures !Blind(t, seen, m) {
      if Blind(t, seen, m) {
        forall j | 1 <= j < |c| ensures Made(t, m, t.pos[c[j].v]) {
          assert FalseBefore(t, c[j], k);
          if t.pos[c[j].v] < t.Roots() { RootMade(t, d, m, t.pos[c[j].v]); }
        }
        ReasonForces(t, d, k, m);
      }
    }
  }

  // ---------- redundant literals ----------

  /** The literal at place `k` follows from the marked literals before it: all other literals of its reason are fixed on
      level 0, marked, or redundant themselves. */
  ghost predicate Redundant(t: Trail, d: Db, src: set<nat>, k: nat)
    decreases k
  {
    && k < |t.lits| && t.lits[k].v < |t.reason|
    && var r := t.reason[t.lits[k].v];
       d.Live(r) && forall j :: 1 <= j < |d.ca[r]| ==>
         var v := d.ca[r][j].v;
         v < |t.pos| && t.pos[v] < k && (t.pos[v] < t.Roots() || v in src || Redundant(t, d, src, t.pos[v]))
  }

  /** Fixed on level 0, marked, or redundant. */
  ghost predicate Covered(t: Trail, d: Db, src: set<nat>, v: nat) {
    v < |t.pos| && (t.pos[v] < t.Roots() || v in src || Redundant(t, d, src, t.pos[v]))
  }

  /** A model that makes the marked literals true which are not redundant makes all redundant and marked ones true. */
  lemma {:induction false} RedundantMade(t: Trail, d: Db, src: set<nat>, k: nat, m: Model)
    requires TrailOk(t) && ReasonsOk(t, d) && Learned(t, d) && Problem(t, d, m) && k < |t.lits|
    requires forall v :: v in src && v < |t.pos| && !Redundant(t, d, src, t.pos[v]) ==> Made(t, m, t.pos[v])
    requires Covered(t, d, src, t.lits[k].v)
    ensures Made(t, m, k)
    decreases k
  {
    hide Learned, Problem, Limits, Levels, ReasonsOk;
    if k < t.Roots() {
      RootMade(t, d, m, k);
    } else if Redundant(t, d, src, k) {
      HasReason(t, d, k);
      var c := d.ca[t.reason[t.lits[k].v]];
      forall j | 1 <= j < |c| ensures Made(t, m, t.pos[c[j].v]) {
        assert FalseBefore(t, c[j], k);
        RedundantMade(t, d, src, t.pos[c[j].v], m);
      }
      ReasonForces(t, d, k, m);
    }
  }

  lemma HasReason(t: Trail, d: Db, k: nat)
    requires TrailOk(t) && ReasonsOk(t, d) && k < |t.lits|
    ensures ReasonAt(t, d, k)
  {
  }

  // ---------- the stack of the redundancy test ----------

  const UNDEF := 0
  const SOURCE := 1
  const REMOVABLE := 2
  const FAILED := 3

  /** A literal whose reason is being looked at, and the place in the reason that has been reached. */
  datatype Frame = Frame(i: nat, l: Lit)

  /** The marks record what is known: exactly the variables of `src` are sources, verdicts are correct. */
  ghost predicate Memo(t: Trail, d: Db, src: set<nat>, seen: seq<nat>) {
    && |seen| == |t.pos|
    && forall v :: 0 <= v < |seen| ==>
         && seen[v] <= FAILED && (seen[v] == SOURCE <==> v in src)
         && (seen[v] == REMOVABLE ==> Redundant(t, d, src, t.pos[v]))
         && (seen[v] == FAILED ==> !Redundant(t, d, src, t.pos[v]))
  }

  /** A false literal with a reason. */
  ghost predicate Active(t: Trail, d: Db, l: Lit) {
    Sizes(t) && l.v < t.Size() && t.Val(l) == LFalse && d.Live(t.reason[l.v])
  }

  function ReasonOf(t: Trail, d: Db, l: Lit): Clause {
    if l.v < |t.reason| && 0 <= t.reason[l.v] < |d.ca| then d.ca[t.reason[l.v]] else []
  }

  /** The literals of the reason before place `i` are covered. */
  ghost predicate UpTo(t: Trail, d: Db, src: set<nat>, l: Lit, i: nat) {
    && Active(t, d, l) && 1 <= i <= |ReasonOf(t, d, l)|
    && forall j :: 1 <= j < i ==> Covered(t, d, src, ReasonOf(t, d, l)[j].v)
  }

  function Above(stack: seq<Frame>, k: nat, p: Lit): Lit {
    if k + 1 < |stack| then stack[k + 1].l else p
  }

  /** Every literal on the stack waits for the one above it, which occurs in its reason. */
  ghost predicate Waiting(t: Trail, d: Db, src: set<nat>, stack: seq<Frame>, p: Lit) {
    forall k :: 0 <= k < |stack| ==>
      && UpTo(t, d, src, stack[k].l, stack[k].i) && stack[k].i < |ReasonOf(t, d, stack[k].l)|
      && ReasonOf(t, d, stack[k].l)[stack[k].i] == Above(stack, k, p)
  }

  /** All but the bottom literal are undecided and not fixed on level 0. */
  ghost predicate Undecided(t: Trail, seen: seq<nat>, stack: seq<Frame>, p: Lit) {
    forall k :: 0 <= k < |stack| ==>
      var l := Above(stack, k, p);
      l.v < |seen| && l.v < |t.pos| && seen[l.v] == UNDEF && t.pos[l.v] >= t.Roots()
  }

  ghost predicate Testing(t: Trail, d: Db, src: set<nat>, seen: seq<nat>, stack: seq<Frame>, p: Lit, i: nat) {
    && Memo(t, d, src, seen) && UpTo(t, d, src, p, i)
    && Waiting(t, d, src, stack, p) && Undecided(t, seen, stack, p)
  }

  /** One literal of the reason that is not covered spoils it. */
  lemma SpoiltBy(t: Trail, d: Db, src: set<nat>, p: Lit, i: nat)
    requires TrailOk(t) && Active(t, d, p) && 1 <= i < |ReasonOf(t, d, p)|
    requires !Covered(t, d, src, ReasonOf(t, d, p)[i].v)
    ensures !Redundant(t, d, src, t.pos[p.v])
  {
  }

  lemma AllCovered(t: Trail, d: Db, src: set<nat>, p: Lit, i: nat)
    requires TrailOk(t) && ReasonsOk(t, d) && UpTo(t, d, src, p, i) && i == |ReasonOf(t, d, p)|
    ensures Redundant(t, d, src, t.pos[p.v])
  {
    var k := t.pos[p.v];
    HasReason(t, d, k);
    forall j | 1 <= j < i ensures t.pos[ReasonOf(t, d, p)[j].v] < k {
      assert FalseBefore(t, ReasonOf(t, d, p)[j], k) && Covered(t, d, src, ReasonOf(t, d, p)[j].v);
    }
  }

  /** When the literal on top fails, everything below it fails. */
  lemma {:induction false} ChainFails(t: Trail, d: Db, src: set<nat>, seen: seq<nat>, stack: seq<Frame>, p: Lit, k: nat)
    requires TrailOk(t) && Memo(t, d, src, seen) && Waiting(t, d, src, stack, p) && Undecided(t, seen, stack, p)
    requires k < |stack| && p.v < |t.pos| && !Redundant(t, d, src, t.pos[p.v])
    ensures !Redundant(t, d, src, t.pos[stack[k].l.v])
    decreases |stack| - k
  {
    hide TrailOk, Redundant, Memo, Active, ReasonOf;
    var l := Above(stack, k, p);
    if k + 1 < |stack| { ChainFails(t, d, src, seen, stack, p, k + 1); }
    NotASource(t, d, src, seen, l);
    assert UpTo(t, d, src, stack[k].l, stack[k].i);
    SpoiltBy(t, d, src, stack[k].l, stack[k].i);
  }

  lemma NotASource(t: Trail, d: Db, src: set<nat>, seen: seq<nat>, l: Lit)
    requires Memo(t, d, src, seen) && l.v < |seen| && seen[l.v] != SOURCE && t.pos[l.v] >= t.Roots()
    requires !Redundant(t, d, src, t.pos[l.v])
    ensures !Covered(t, d, src, l.v)
  {
  }

  ghost function UndecidedVars(seen: seq<nat>): set<nat> {
    set v | 0 <= v < |seen| && seen[v] == UNDEF
  }

  lemma DecideOne(seen: seq<nat>, v: nat, mark: nat)
    requires v < |seen| && seen[v] == UNDEF && mark != UNDEF
    ensures |UndecidedVars(seen[v := mark])| < |UndecidedVars(seen)|
  {
    assert UndecidedVars(seen) == UndecidedVars(seen[v := mark]) + {v};
  }

  // ---------- the steps of the test ----------

  lemma Skip(t: Trail, d: Db, src: set<nat>, seen: seq<nat>, stack: seq<Frame>, p: Lit, i: nat)
    requires TrailOk(t) && ReasonsOk(t, d) && Testing(t, d, src, seen, stack, p, i) && i < |ReasonOf(t, d, p)|
    requires ReasonOf(t, d, p)[i].v < |seen|
    requires var v := ReasonOf(t, d, p)[i].v; t.level[v] == 0 || seen[v] == SOURCE || seen[v] == REMOVABLE
    ensures Testing(t, d, src, seen, stack, p, i + 1)
  {
    hide Redundant, Waiting, Undecided, Levels, Limits, Listed;
    var l := ReasonOf(t, d, p)[i];
    ParentFalse(t, d, p, i);
    CurrentLevel(t, l);
  }

  /** The other literals of a reason are false, and were so before. */
  lemma ParentFalse(t: Trail, d: Db, p: Lit, i: nat)
    requires TrailOk(t) && ReasonsOk(t, d) && Active(t, d, p) && 1 <= i < |ReasonOf(t, d, p)|
    ensures var l := ReasonOf(t, d, p)[i]; t.Val(l) == LFalse && l.v < t.Size() && t.pos[l.v] < t.pos[p.v]
  {
    HasReason(t, d, t.pos[p.v]);
    assert FalseBefore(t, ReasonOf(t, d, p)[i], t.pos[p.v]);
  }

  lemma Descend(t: Trail, d: Db, src: set<nat>, seen: seq<nat>, stack: seq<Frame>, p: Lit, i: nat)
    requires TrailOk(t) && ReasonsOk(t, d) && Testing(t, d, src, seen, stack, p, i) && i < |ReasonOf(t, d, p)|
    requires var l := ReasonOf(t, d, p)[i]; l.v < |seen| && t.level[l.v] != 0 && seen[l.v] == UNDEF && t.reason[l.v] >= 0
    ensures Testing(t, d, src, seen, stack + [Frame(i, p)], ReasonOf(t, d, p)[i], 1)
  {
    hide Redundant, Levels, Limits, Memo, Covered;
    var l := ReasonOf(t, d, p)[i];
    ParentFalse(t, d, p, i);
    CurrentLevel(t, l);
    HasReason(t, d, t.pos[l.v]);
    var stack' := stack + [Frame(i, p)];
    forall k | 0 <= k < |stack'| ensures Above(stack', k, l) == if k < |stack| then Above(stack, k, p) else l {}
  }

  lemma MarkMemo(t: Trail, d: Db, src: set<nat>, seen: seq<nat>, v: nat, mark: nat)
    requires Memo(t, d, src, seen) && v < |seen| && seen[v] == UNDEF && (mark == REMOVABLE || mark == FAILED)
    requires mark == REMOVABLE <==> Redundant(t, d, src, t.pos[v])
    ensures Memo(t, d, src, seen[v := mark])
  {
  }

  lemma PopWaiting(t: Trail, d: Db, src: set<nat>, stack: seq<Frame>, p: Lit)
    requires Waiting(t, d, src, stack, p) && stack != []
    ensures var n := |stack| - 1; Waiting(t, d, src, stack[..n], stack[n].l)
  {
    var n := |stack| - 1;
    forall k | 0 <= k < n ensures Above(stack[..n], k, stack[n].l) == Above(stack, k, p) && stack[..n][k] == stack[k] {}
  }

  lemma PopUndecided(t: Trail, seen: seq<nat>, stack: seq<Frame>, p: Lit, mark: nat)
    requires Undecided(t, seen, stack, p) && stack != [] && p.v < |seen|
    requires forall k :: 0 <= k < |stack| ==> stack[k].l.v != p.v
    ensures var n := |stack| - 1; Undecided(t, seen[p.v := mark], stack[..n], stack[n].l)
  {
    var n := |stack| - 1;
    forall k | 0 <= k < n ensures Above(stack[..n], k, stack[n].l) == Above(stack, k, p) && Above(stack, k, p).v != p.v {
      assert Above(stack, k, p) == stack[k + 1].l;
    }
  }

  lemma TopUndecided(t: Trail, seen: seq<nat>, stack: seq<Frame>, p: Lit)
    requires Undecided(t, seen, stack, p) && stack != []
    ensures p.v < |seen| && p.v < |t.pos| && seen[p.v] == UNDEF && t.pos[p.v] >= t.Roots()
  {
    assert Above(stack, |stack| - 1, p) == p;
  }

  /** A finished literal goes back to the one that waits for it. */
  lemma Return(t: Trail, d: Db, src: set<nat>, seen: seq<nat>, stack: seq<Frame>, p: Lit, i: nat)
    requires TrailOk(t) && ReasonsOk(t, d) && Testing(t, d, src, seen, stack, p, i) && i == |ReasonOf(t, d, p)| && stack != []
    ensures p.v < |seen| && seen[p.v] == UNDEF && Redundant(t, d, src, t.pos[p.v])
    ensures var n := |stack| - 1;
            Testing(t, d, src, seen[p.v := REMOVABLE], stack[..n], stack[n].l, stack[n].i + 1)
  {
    hide Redundant, TrailOk, Memo, Undecided, ReasonOf, Active;
    var n := |stack| - 1;
    AllCovered(t, d, src, p, i);
    TopUndecided(t, seen, stack, p);
    MarkMemo(t, d, src, seen, p.v, REMOVABLE);
    PopWaiting(t, d, src, stack, p);
    Descending(t, d, src, stack, p);
    PopUndecided(t, seen, stack, p, REMOVABLE);
    assert Above(stack, n, p) == p && UpTo(t, d, src, stack[n].l, stack[n].i);
  }

  /** Along the stack the places on the trail go down. */
  lemma {:induction false} Descending(t: Trail, d: Db, src: set<nat>, stack: seq<Frame>, p: Lit)
    requires TrailOk(t) && ReasonsOk(t, d) && Waiting(t, d, src, stack, p)
    ensures forall k :: 0 <= k < |stack| ==> stack[k].l.v < t.Size() && p.v < t.Size() && t.pos[p.v] < t.pos[stack[k].l.v]
  {
    if stack != [] {
      var n := |stack| - 1;
      var rest, q := stack[..n], stack[n].l;
      forall k | 0 <= k < n ensures Above(rest, k, q) == Above(stack, k, p) && rest[k] == stack[k] {}
      assert UpTo(t, d, src, stack[n].l, stack[n].i) && Above(stack, n, p) == p;
      Descending(t, d, src, rest, q);
      ParentFalse(t, d, q, stack[n].i);
      forall k | 0 <= k < |stack| ensures stack[k].l.v < t.Size() && p.v < t.Size() && t.pos[p.v] < t.pos[stack[k].l.v] {
        if k < n { assert rest[k] == stack[k]; }
      }
    }
  }

  /** A literal that cannot be covered: it and everything that waits for it fails. */
  lemma Fail(t: Trail, d: Db, src: set<nat>, seen: seq<nat>, stack: seq<Frame>, p: Lit, i: nat)
    requires TrailOk(t) && ReasonsOk(t, d) && Testing(t, d, src, seen, stack, p, i) && i < |ReasonOf(t, d, p)|
    requires ReasonOf(t, d, p)[i].v < |seen|
    requires var v := ReasonOf(t, d, p)[i].v;
             t.level[v] != 0 && seen[v] != SOURCE && (t.reason[v] < 0 || seen[v] == FAILED)
    ensures !Redundant(t, d, src, t.pos[p.v])
    ensures forall k :: 0 <= k < |stack| ==> stack[k].l.v < t.Size() && !Redundant(t, d, src, t.pos[stack[k].l.v])
  {
    hide Levels, Limits, Waiting, Undecided;
    var l := ReasonOf(t, d, p)[i];
    ParentFalse(t, d, p, i);
    CurrentLevel(t, l);
    NotASource(t, d, src, seen, l);
    SpoiltBy(t, d, src, p, i);
    Descending(t, d, src, stack, p);
    forall k | 0 <= k < |stack| ensures !Redundant(t, d, src, t.pos[stack[k].l.v]) {
      ChainFails(t, d, src, seen, stack, p, k);
    }
  }

  // ---------- the marks of the analysis ----------

  /** Marked are variables of levels above 0 assigned before place `hi`; those below the current level are the variables
      of `out`, whose literals are false. */
  ghost predicate Marks(t: Trail, seen: seq<nat>, out: Clause, hi: nat) {
    && |seen| == |t.pos| == |t.assigns|
    && (forall v :: 0 <= v < |seen| ==> seen[v] == UNDEF || seen[v] == SOURCE)
    && (forall v :: 0 <= v < |seen| && seen[v] == SOURCE ==> t.assigns[v] != LUndef && t.Roots() <= t.pos[v] < hi)
    && (forall v :: 0 <= v < |seen| && seen[v] == SOURCE && t.pos[v] < t.Base() ==> v in VarsOf(out))
    && (forall l :: l in out ==> l.v < |seen| && t.Val(l) == LFalse && seen[l.v] == SOURCE && t.pos[l.v] < t.Base())
    && forall j, k :: 0 <= j < k < |out| ==> out[j].v != out[k].v
  }

  ghost function OpenPlaces(t: Trail, seen: seq<nat>): set<nat> {
    set k | t.Base() <= k < |t.lits| && t.lits[k].v < |seen| && seen[t.lits[k].v] == SOURCE
  }

  lemma MarkOpen(t: Trail, seen: seq<nat>, out: Clause, hi: nat, q: Lit)
    requires TrailOk(t) && Marks(t, seen, out, hi) && t.Val(q) == LFalse && t.pos[q.v] < hi
    requires seen[q.v] == UNDEF && t.level[q.v] > 0 && t.level[q.v] >= |t.lim|
    ensures Marks(t, seen[q.v := SOURCE], out, hi)
    ensures |OpenPlaces(t, seen[q.v := SOURCE])| == |OpenPlaces(t, seen)| + 1
  {
    CurrentLevel(t, q);
    var s := seen[q.v := SOURCE];
    assert OpenPlaces(t, s) == OpenPlaces(t, seen) + {t.pos[q.v]};
  }

  lemma MarkLow(t: Trail, seen: seq<nat>, out: Clause, hi: nat, q: Lit)
    requires TrailOk(t) && Marks(t, seen, out, hi) && t.Val(q) == LFalse && t.pos[q.v] < hi
    requires seen[q.v] == UNDEF && 0 < t.level[q.v] < |t.lim|
    ensures Marks(t, seen[q.v := SOURCE], out + [q], hi)
    ensures |OpenPlaces(t, seen[q.v := SOURCE])| == |OpenPlaces(t, seen)|
  {
    hide Levels, Limits;
    CurrentLevel(t, q);
    var s := seen[q.v := SOURCE];
    assert OpenPlaces(t, s) == OpenPlaces(t, seen);
    assert q in out + [q];
  }

  /** The marked literal last on the trail gives up its mark. */
  lemma Unmark(t: Trail, d: Db, seen: seq<nat>, out: Clause, hi: nat, k: nat)
    requires TrailOk(t) && ReasonsOk(t, d) && Marks(t, seen, out, hi) && t.Base() <= k < hi && k < |t.lits|
    requires seen[t.lits[k].v] == SOURCE && |t.lim| > 0
    requires forall j :: k < j < hi && j < |t.lits| ==> seen[t.lits[j].v] == UNDEF
    ensures Marks(t, seen[t.lits[k].v := UNDEF], out, k)
    ensures |OpenPlaces(t, seen[t.lits[k].v := UNDEF])| == |OpenPlaces(t, seen)| - 1
    ensures |OpenPlaces(t, seen)| > 1 ==> t.reason[t.lits[k].v] >= 0
  {
    hide TrailOk, Marks, ReasonsOk, OpenPlaces;
    MarksBelow(t, seen, out, hi, k);
    var s := seen[t.lits[k].v := UNDEF];
    CloseOne(t, seen, k);
    if |OpenPlaces(t, s)| > 0 {
      var j := OpenPlace(t, s, out, k);
      LaterHasReason(t, d, j, k);
    }
  }

  lemma MarksBelow(t: Trail, seen: seq<nat>, out: Clause, hi: nat, k: nat)
    requires TrailOk(t) && Marks(t, seen, out, hi) && t.Base() <= k < hi && k < |t.lits|
    requires forall j :: k < j < hi && j < |t.lits| ==> seen[t.lits[j].v] == UNDEF
    ensures t.lits[k].v < |seen| == |t.pos| && Marks(t, seen[t.lits[k].v := UNDEF], out, k)
  {
    hide Levels, Limits;
    var s := seen[t.lits[k].v := UNDEF];
    forall u | 0 <= u < |s| && s[u] == SOURCE ensures t.pos[u] < k {
      assert t.lits[t.pos[u]].v == u;
    }
  }

  lemma CloseOne(t: Trail, seen: seq<nat>, k: nat)
    requires TrailOk(t) && |seen| == |t.pos| && t.Base() <= k < |t.lits| && seen[t.lits[k].v] == SOURCE
    ensures |OpenPlaces(t, seen[t.lits[k].v := UNDEF])| == |OpenPlaces(t, seen)| - 1
  {
    hide Levels, Limits;
    var s := seen[t.lits[k].v := UNDEF];
    assert OpenPlaces(t, seen) == OpenPlaces(t, s) + {k};
  }

  /** Only the first literal of a level is a decision. */
  lemma LaterHasReason(t: Trail, d: Db, j: nat, k: nat)
    requires TrailOk(t) && ReasonsOk(t, d) && |t.lim| > 0 && t.Base() <= j < k < |t.lits|
    ensures t.reason[t.lits[k].v] >= 0
  {
    HasReason(t, d, k);
    CurrentLevel(t, t.lits[k]);
  }

  /** Some place is open while the counter is positive. */
  lemma OpenPlace(t: Trail, seen: seq<nat>, out: Clause, hi: nat) returns (k: nat)
    requires TrailOk(t) && Marks(t, seen, out, hi) && |OpenPlaces(t, seen)| > 0
    ensures t.Base() <= k < hi && k < |t.lits| && seen[t.lits[k].v] == SOURCE
  {
    k :| k in OpenPlaces(t, seen);
    assert t.pos[t.lits[k].v] == k;
  }

  // ---------- the learnt clause ----------

  ghost function Sources(seen: seq<nat>): set<nat> {
    set v | 0 <= v < |seen| && seen[v] == SOURCE
  }

  lemma StartMemo(t: Trail, d: Db, seen: seq<nat>, out: Clause, hi: nat)
    requires Marks(t, seen, out, hi)
    ensures Memo(t, d, Sources(seen), seen)
  {
  }

  /** The literal of the current level and the literals that are not redundant follow from the problem. */
  lemma LearntImplied(t: Trail, d: Db, seen: seq<nat>, p: Lit, out: Clause, kept: Clause)
    requires TrailOk(t) && ReasonsOk(t, d) && Learned(t, d) && p in t.lits && p.v < |seen|
    requires Marks(t, seen, out, t.pos[p.v]) && OpenPlaces(t, seen) == {} && Refuted(t, d, seen[p.v := SOURCE])
    requires forall l :: l in out && !Redundant(t, d, Sources(seen), t.pos[l.v]) ==> l in kept
    ensures Implied(t, d, [Neg(p)] + kept)
  {
    hide Problem, Learned, ReasonsOk, Redundant, Levels, Limits;
    var src := Sources(seen);
    var c, all := [Neg(p)] + kept, seen[p.v := SOURCE];
    forall m | Problem(t, d, m) ensures SatClause(m, c) {
      var v :| 0 <= v < |all| && all[v] == SOURCE && !Made(t, m, t.pos[v]);
      if v == p.v {
        assert Neg(p) in c && t.lits[t.pos[v]] == p;
      } else {
        var u := LeftOver(t, d, src, v, m);
        assert t.pos[u] in OpenPlaces(t, seen) || t.pos[u] < t.Base();
        assert u in VarsOf(out);
        var l :| l in out && l.v == u;
        assert l in c && t.lits[t.pos[u]] == Neg(l);
      }
    }
  }

  /** If a marked literal is not made true, then one that is not redundant is not. */
  lemma LeftOver(t: Trail, d: Db, src: set<nat>, v: nat, m: Model) returns (u: nat)
    requires TrailOk(t) && ReasonsOk(t, d) && Learned(t, d) && Problem(t, d, m)
    requires forall w :: w in src ==> w < t.Size() && w < |t.pos| && t.assigns[w] != LUndef
    requires v in src && !Made(t, m, t.pos[v])
    ensures u in src && u < |t.pos| && !Redundant(t, d, src, t.pos[u]) && !Made(t, m, t.pos[u])
  {
    if forall w :: w in src && w < |t.pos| && !Redundant(t, d, src, t.pos[w]) ==> Made(t, m, t.pos[w]) {
      RedundantMade(t, d, src, t.pos[v], m);
    }
    u :| u in src && u < |t.pos| && !Redundant(t, d, src, t.pos[u]) && !Made(t, m, t.pos[u]);
  }

  lemma NoReason(t: Trail, d: Db, src: set<nat>, l: Lit)
    requires TrailOk(t) && t.Val(l) == LFalse && t.reason[l.v] < 0
    ensures !Redundant(t, d, src, t.pos[l.v])
  {
  }

  lemma HasActive(t: Trail, d: Db, l: Lit)
    requires TrailOk(t) && ReasonsOk(t, d) && t.Val(l) == LFalse && t.reason[l.v] >= 0
    ensures Active(t, d, l)
  {
    HasReason(t, d, t.pos[l.v]);
  }

  /** A clause that becomes unit after going back to level `back`: one literal of the current level in front, behind it a
      literal of level `back`, no other level in between. */
  ghost predicate Asserting(t: Trail, c: Clause, back: nat) {
    && |c| > 0 && ClauseOk(t.Size(), c) && Sizes(t) && back < |t.lim|
    && (forall k :: 0 <= k < |c| ==> t.Val(c[k]) == LFalse)
    && t.level[c[0].v] == |t.lim|
    && (forall k :: 1 <= k < |c| ==> 0 < t.level[c[k].v] <= back)
    && (if |c| == 1 then back == 0 else t.level[c[1].v] == back)
  }

  /** Going back makes the first literal of the learnt clause unassigned and keeps the others false. */
  lemma BackUnit(t: Trail, c: Clause, back: nat)
    requires TrailOk(t) && Asserting(t, c, back)
    ensures var u := CutTo(t, back); u.Val(c[0]) == LUndef && forall k :: 1 <= k < |c| ==> u.Val(c[k]) == LFalse
  {
    hide Listed, Limits, Levels, CutTo;
    CutValue(t, back, c[0]);
    forall k | 1 <= k < |c| ensures CutTo(t, back).Val(c[k]) == LFalse { CutValue(t, back, c[k]); }
  }

  /** Going back and learning a clause of at least two literals. */
  lemma LearnClause(t: Trail, d: Db, c: Clause, back: nat)
    requires Kernel(t, d, t.Base(), {}, 0) && Learned(t, d) && Asserting(t, c, back) && Implied(t, d, c) && |c| >= 2
    ensures ToInt(Neg(c[0])) < |d.watches| && ToInt(Neg(c[1])) < |d.watches|
    ensures var u, e := CutTo(t, back), Attached(d, c, true);
            var v := Enqueued(u, c[0], |d.ca|);
            Kernel(v, e, |u.lits|, {}, 0) && Learned(v, e) && SameProblem(t, d, v, e)
  {
    hide Listed, Limits, Levels, ListsOk, ReasonsOk, WatchOk, Learned, Implied, SameProblem, ClauseOk, CutTo, MayEnqueue, Attached;
    var u := CutTo(t, back);
    LimitPlace(t, back);
    CutKernel(t, d, t.Base(), back);
    CutProblem(t, d, back);
    CutSize(t, back);
    BackUnit(t, c, back);
    ImpliedStays(t, d, u, d, c);
    CutLevel(t, back);
    var v := Enqueued(u, c[0], |d.ca|);
    LearnKernel(u, d, c, v);
    var e := Attached(d, c, true);
    AttachLearnt(u, d, c);
    EnqueueProblem(u, e, c[0], |d.ca|);
    SameTrans(t, d, u, d, u, e);
    SameTrans(t, d, u, e, v, e);
  }

  lemma LimitPlace(t: Trail, level: nat)
    requires TrailOk(t) && level < |t.lim|
    ensures t.lim[level] <= t.Base() <= |t.lits|
  {
  }

  lemma CutLevel(t: Trail, level: nat)
    requires TrailOk(t) && level < |t.lim|
    ensures |CutTo(t, level).lim| == level
  {
  }

  /** Going back to level 0 and fixing a learnt literal there. */
  lemma LearnUnit(t: Trail, d: Db, c: Clause)
    requires Kernel(t, d, t.Base(), {}, 0) && Learned(t, d) && Asserting(t, c, 0) && Implied(t, d, c) && |c| == 1
    ensures var u := CutTo(t, 0);
            var v := Enqueued(u, c[0], -1);
            Kernel(v, d, |u.lits|, {}, 0) && Learned(v, d) && SameProblem(t, d, v, d)
  {
    hide Listed, Limits, Levels, DbOk, ReasonsOk, WatchOk, Learned, SatClause, Problem, CutTo, Implied, SameProblem;
    var u := CutTo(t, 0);
    LimitPlace(t, 0);
    CutKernel(t, d, t.Base(), 0);
    CutProblem(t, d, 0);
    CutSize(t, 0);
    CutLevel(t, 0);
    BackUnit(t, c, 0);
    ImpliedStays(t, d, u, d, c);
    var v := Enqueued(u, c[0], -1);
    EnqueueKernel(u, d, |u.lits|, {}, 0, c[0], -1);
    RootLearned(u, d, c[0]);
    assert c == [c[0]];
    UnitImplied(u, d, c[0]);
    SameTrans(t, d, u, d, v, d);
  }

  lemma UnitImplied(u: Trail, d: Db, l: Lit)
    requires TrailOk(u) && u.lim == [] && MayEnqueue(u, d, l, -1) && Implied(u, d, [l])
    ensures SameProblem(u, d, Enqueued(u, l, -1), d)
  {
    hide Problem, Listed, Limits, Levels;
    forall m ensures Problem(u, d, m) <==> Problem(Enqueued(u, l, -1), d, m) {
      RootProblem(u, d, l, m);
    }
  }

  // ---------- the final conflict ----------

  /** A model that makes the collected literals false and the marked ones true makes `p` true. */
  ghost predicate Explains(t: Trail, d: Db, seen: seq<nat>, conf: set<Lit>, p: Lit)
    requires |seen| == |t.pos|
  {
    forall m :: Problem(t, d, m) && Blind(t, seen, m) && (forall l :: l in conf && l != p ==> !Makes(m, l)) ==> Makes(m, p)
  }

  /** Besides `p` only negated decisions have been collected. */
  ghost predicate Decisions(t: Trail, conf: set<Lit>, p: Lit) {
    forall l :: l in conf && l != p ==>
      exists k :: t.Roots() <= k < |t.lits| && t.lits[k].v < |t.reason| && l == Neg(t.lits[k]) && t.reason[t.lits[k].v] < 0
  }

  lemma MoreDecisions(t: Trail, conf: set<Lit>, p: Lit, k: nat)
    requires Decisions(t, conf, p) && t.Roots() <= k < |t.lits| && t.lits[k].v < |t.reason| && t.reason[t.lits[k].v] < 0
    ensures Decisions(t, conf + {Neg(t.lits[k])}, p)
  {
  }

  lemma ExplainsStart(t: Trail, d: Db, seen: seq<nat>, p: Lit)
    requires TrailOk(t) && |seen| == |t.pos| && t.Val(p) == LTrue && seen[p.v] == SOURCE
    ensures Explains(t, d, seen, {p}, p)
  {
    assert t.lits[t.pos[p.v]] == p;
  }

  /** A marked decision is collected. */
  lemma ExplainsDecision(t: Trail, d: Db, seen: seq<nat>, conf: set<Lit>, p: Lit, k: nat)
    requires TrailOk(t) && |seen| == |t.pos| && k < |t.lits| && t.Val(p) == LTrue && Explains(t, d, seen, conf, p)
    ensures Explains(t, d, seen[t.lits[k].v := UNDEF], conf + {Neg(t.lits[k])}, p)
  {
    hide Problem, Limits, Levels;
    var s := seen[t.lits[k].v := UNDEF];
    var all := conf + {Neg(t.lits[k])};
    ValueNeg(t.assigns, t.lits[k]);
    assert Neg(t.lits[k]) != p;
    forall m | Problem(t, d, m) && Blind(t, s, m) && (forall l :: l in all && l != p ==> !Makes(m, l)) ensures Makes(m, p) {
      assert Neg(t.lits[k]) in all && Makes(m, t.lits[k]);
      assert Blind(t, seen, m);
    }
  }

  /** A marked implied literal is replaced by the rest of its reason. */
  lemma ExplainsReason(t: Trail, d: Db, before: seq<nat>, seen: seq<nat>, conf: set<Lit>, p: Lit, k: nat)
    requires TrailOk(t) && ReasonsOk(t, d) && Learned(t, d) && |before| == |seen| == |t.pos| && k < |t.lits|
    requires Explains(t, d, before, conf, p) && t.reason[t.lits[k].v] >= 0 && ReasonAt(t, d, k)
    requires Absorbed(t, seen, d.ca[t.reason[t.lits[k].v]], 1)
    requires forall v :: 0 <= v < |seen| && before[v] == 1 && v != t.lits[k].v ==> seen[v] == 1
    ensures Explains(t, d, seen, conf, p)
  {
    hide Learned, Problem, Limits, Levels, ReasonsOk;
    var c := d.ca[t.reason[t.lits[k].v]];
    forall m | Problem(t, d, m) && Blind(t, seen, m) && (forall l :: l in conf && l != p ==> !Makes(m, l)) ensures Makes(m, p) {
      forall j | 1 <= j < |c| ensures Made(t, m, t.pos[c[j].v]) {
        assert FalseBefore(t, c[j], k);
        if t.pos[c[j].v] < t.Roots() { RootMade(t, d, m, t.pos[c[j].v]); }
      }
      ReasonForces(t, d, k, m);
      assert Blind(t, before, m);
    }
  }

  /** In the end only literals of level 0 are marked, and the collected literals form an implied clause. */
  lemma ExplainsEnd(t: Trail, d: Db, seen: seq<nat>, conf: set<Lit>, p: Lit, m: Model)
    requires |seen| == |t.pos| && Explains(t, d, seen, conf, p) && p in conf && Problem(t, d, m)
    requires forall v :: 0 <= v < |seen| && seen[v] == SOURCE ==> t.pos[v] < t.Roots() && t.pos[v] < |t.lits|
    ensures exists l :: l in conf && Makes(m, l)
  {
    forall v | 0 <= v < |seen| && seen[v] == SOURCE ensures Made(t, m, t.pos[v]) { RootMade(t, d, m, t.pos[v]); }
    assert Blind(t, seen, m);
  }

  /** Marked are assigned variables before place `hi`, on levels above 0 except for `v0`. */
  ghost predicate Trace(t: Trail, seen: seq<nat>, v0: nat, hi: nat) {
    && |seen| == |t.pos| == |t.assigns| && (v0 < |seen| ==> t.assigns[v0] != LUndef)
    && forall v :: 0 <= v < |seen| && seen[v] != UNDEF ==>
         seen[v] == SOURCE && t.assigns[v] != LUndef && (v == v0 || t.Roots() <= t.pos[v] < hi) && (t.pos[v] < t.Roots() || t.pos[v] < hi)
  }

  /** The literal at place `k` is the decision at place `n`, or its reason has a literal above level 0 that depends on that
      decision. */
  ghost predicate DependsOn(t: Trail, d: Db, k: nat, n: nat) {
    && t.Roots() <= k < |t.lits| && t.lits[k].v < |t.reason| && t.reason[t.lits[k].v] < |d.ca|
    && var r := t.reason[t.lits[k].v];
       if r < 0 then n == k
       else exists j :: 1 <= j < |d.ca[r]| && d.ca[r][j].v < |t.pos| && t.pos[d.ca[r][j].v] < k
                        && DependsOn(t, d, t.pos[d.ca[r][j].v], n)
  }

  /** The places of the decisions that the literal at place `k` depends on. */
  ghost function Support(t: Trail, d: Db, k: nat): set<nat> { set n: nat | n <= k && DependsOn(t, d, k, n) }

  /** The final conflict for `p`: it says that these decisions cannot be made together without `p`. */
  ghost function FinalCore(t: Trail, d: Db, p: Lit): set<Lit> {
    {p} + Negated(t, if p.v < |t.pos| then Support(t, d, t.pos[p.v]) else {})
  }

  ghost function Negated(t: Trail, places: set<nat>): set<Lit> { set n | n in places && n < |t.lits| :: Neg(t.lits[n]) }

  lemma {:induction false} DependsBelow(t: Trail, d: Db, k: nat, n: nat)
    requires DependsOn(t, d, k, n)
    ensures n <= k
    decreases k
  {
    var r := t.reason[t.lits[k].v];
    if r >= 0 {
      var j :| 1 <= j < |d.ca[r]| && d.ca[r][j].v < |t.pos| && t.pos[d.ca[r][j].v] < k && DependsOn(t, d, t.pos[d.ca[r][j].v], n);
      DependsBelow(t, d, t.pos[d.ca[r][j].v], n);
    }
  }

  /** A marked literal depends on the decision at place `n`. */
  ghost predicate MarkDepends(t: Trail, d: Db, seen: seq<nat>, n: nat) {
    exists v :: 0 <= v < |seen| && v < |t.pos| && seen[v] != UNDEF && DependsOn(t, d, t.pos[v], n)
  }

  /** What the literal at place `k` depends on has been collected, or still depends on a mark. */
  ghost predicate Accounts(t: Trail, d: Db, seen: seq<nat>, got: set<nat>, k: nat) {
    forall n: nat :: DependsOn(t, d, k, n) <==> n in got || MarkDepends(t, d, seen, n)
  }

  lemma AccountsStart(t: Trail, d: Db, seen: seq<nat>, v: nat)
    requires v < |seen| == |t.pos| && seen[v] == SOURCE && forall u :: 0 <= u < |seen| && u != v ==> seen[u] == UNDEF
    ensures Accounts(t, d, seen, {}, t.pos[v])
  {
    hide DependsOn;
    forall n: nat ensures DependsOn(t, d, t.pos[v], n) <==> MarkDepends(t, d, seen, n) {}
  }

  lemma AccountsDecision(t: Trail, d: Db, seen: seq<nat>, got: set<nat>, k: nat, i: nat)
    requires TrailOk(t) && Accounts(t, d, seen, got, k) && |seen| == |t.pos| && t.Roots() <= i < |t.lits|
    requires seen[t.lits[i].v] != UNDEF && t.reason[t.lits[i].v] < 0
    ensures Accounts(t, d, seen[t.lits[i].v := UNDEF], got + {i}, k)
  {
    hide Limits, Levels;
    var x := t.lits[i].v;
    var s := seen[x := UNDEF];
    assert t.pos[x] == i;
    forall n: nat ensures DependsOn(t, d, i, n) <==> n == i {}
    AccountsStep(t, d, seen, s, got, got + {i}, k, x);
  }

  lemma AccountsReason(t: Trail, d: Db, before: seq<nat>, seen: seq<nat>, got: set<nat>, k: nat, i: nat)
    requires TrailOk(t) && Accounts(t, d, before, got, k) && |before| == |seen| == |t.pos| && t.Roots() <= i < |t.lits|
    requires before[t.lits[i].v] != UNDEF && t.reason[t.lits[i].v] >= 0 && ReasonAt(t, d, i)
    requires MarksAdded(before[t.lits[i].v := UNDEF], seen, d.ca[t.reason[t.lits[i].v]], 1)
    requires Absorbed(t, seen, d.ca[t.reason[t.lits[i].v]], 1)
    ensures Accounts(t, d, seen, got, k)
  {
    hide Limits, Levels;
    var x := t.lits[i].v;
    var c := d.ca[t.reason[x]];
    assert t.pos[x] == i;
    forall j | 1 <= j < |c| ensures c[j].v < |t.pos| && t.pos[c[j].v] < i { assert FalseBefore(t, c[j], i); }
    forall n: nat ensures n in got || MarkDepends(t, d, seen, n) <==> n in got || MarkDepends(t, d, before, n) {
      ReasonDepends(t, d, before, seen, i, n);
    }
  }

  lemma ReasonDepends(t: Trail, d: Db, before: seq<nat>, seen: seq<nat>, i: nat, n: nat)
    requires TrailOk(t) && |before| == |seen| == |t.pos| && t.Roots() <= i < |t.lits| && t.pos[t.lits[i].v] == i
    requires before[t.lits[i].v] != UNDEF && 0 <= t.reason[t.lits[i].v] < |d.ca|
    requires MarksAdded(before[t.lits[i].v := UNDEF], seen, d.ca[t.reason[t.lits[i].v]], 1)
    requires Absorbed(t, seen, d.ca[t.reason[t.lits[i].v]], 1)
    requires var c := d.ca[t.reason[t.lits[i].v]]; forall j :: 1 <= j < |c| ==> c[j].v < |t.pos| && t.pos[c[j].v] < i
    ensures MarkDepends(t, d, before, n) ==> MarkDepends(t, d, seen, n)
    ensures MarkDepends(t, d, seen, n) ==> MarkDepends(t, d, before, n)
  {
    hide Listed, Limits, Levels, MarksAdded, DependsOn, MarkDepends, Absorbed;
    if MarkDepends(t, d, before, n) { PassedOn(t, d, before, seen, i, n); }
    if MarkDepends(t, d, seen, n) { PassedFrom(t, d, before, seen, i, n); }
  }

  lemma PassedOn(t: Trail, d: Db, before: seq<nat>, seen: seq<nat>, i: nat, n: nat)
    requires TrailOk(t) && |before| == |seen| == |t.pos| && t.Roots() <= i < |t.lits| && t.pos[t.lits[i].v] == i
    requires before[t.lits[i].v] != UNDEF && 0 <= t.reason[t.lits[i].v] < |d.ca|
    requires MarksAdded(before[t.lits[i].v := UNDEF], seen, d.ca[t.reason[t.lits[i].v]], 1)
    requires Absorbed(t, seen, d.ca[t.reason[t.lits[i].v]], 1) && MarkDepends(t, d, before, n)
    ensures MarkDepends(t, d, seen, n)
  {
    hide Limits, Levels;
    var x := t.lits[i].v;
    var v :| 0 <= v < |before| && before[v] != UNDEF && DependsOn(t, d, t.pos[v], n);
    if v == x {
      var c := d.ca[t.reason[x]];
      var j :| 1 <= j < |c| && c[j].v < |t.pos| && t.pos[c[j].v] < i && DependsOn(t, d, t.pos[c[j].v], n);
      assert seen[c[j].v] == SOURCE;
    } else {
      assert seen[v] != UNDEF;
    }
  }

  lemma PassedFrom(t: Trail, d: Db, before: seq<nat>, seen: seq<nat>, i: nat, n: nat)
    requires TrailOk(t) && |before| == |seen| == |t.pos| && t.Roots() <= i < |t.lits| && t.pos[t.lits[i].v] == i
    requires before[t.lits[i].v] != UNDEF && 0 <= t.reason[t.lits[i].v] < |d.ca|
    requires MarksAdded(before[t.lits[i].v := UNDEF], seen, d.ca[t.reason[t.lits[i].v]], 1)
    requires MarkDepends(t, d, seen, n)
    requires var c := d.ca[t.reason[t.lits[i].v]]; forall j :: 1 <= j < |c| ==> c[j].v < |t.pos| && t.pos[c[j].v] < i
    ensures MarkDepends(t, d, before, n)
  {
    hide Limits, Levels;
    var x := t.lits[i].v;
    var v :| 0 <= v < |seen| && seen[v] != UNDEF && DependsOn(t, d, t.pos[v], n);
    if v == x || before[v] == UNDEF {
      var c := d.ca[t.reason[x]];
      var j :| 1 <= j < |c| && c[j].v == v;
      assert DependsOn(t, d, t.pos[x], n);
    }
  }

  /** Only variables of the clause from place `from` on have been marked. */
  ghost predicate MarksAdded(before: seq<nat>, after: seq<nat>, c: Clause, from: nat) {
    && |after| == |before|
    && forall v :: 0 <= v < |after| ==> after[v] == before[v] || (after[v] == SOURCE && exists j :: from <= j < |c| && c[j].v == v)
  }

  lemma AccountsStep(t: Trail, d: Db, seen: seq<nat>, s: seq<nat>, got: set<nat>, more: set<nat>, k: nat, x: nat)
    requires Accounts(t, d, seen, got, k) && x < |seen| == |t.pos| && s == seen[x := UNDEF] && seen[x] != UNDEF
    requires got <= more && forall n: nat :: n in more <==> n in got || DependsOn(t, d, t.pos[x], n)
    ensures Accounts(t, d, s, more, k)
  {
    hide DependsOn;
    forall n: nat ensures n in more || MarkDepends(t, d, s, n) <==> n in got || MarkDepends(t, d, seen, n) {
      if MarkDepends(t, d, seen, n) {
        var v :| 0 <= v < |seen| && seen[v] != UNDEF && DependsOn(t, d, t.pos[v], n);
        if v != x { assert s[v] != UNDEF; }
      }
      if MarkDepends(t, d, s, n) {
        var v :| 0 <= v < |s| && s[v] != UNDEF && DependsOn(t, d, t.pos[v], n);
        assert seen[v] != UNDEF;
      }
      if n in more && n !in got { assert MarkDepends(t, d, seen, n); }
    }
  }

  /** In the end only a literal of level 0 can be marked. */
  lemma AccountsEnd(t: Trail, d: Db, seen: seq<nat>, got: set<nat>, p: Lit)
    requires p.v < |t.pos| == |seen| && Accounts(t, d, seen, got, t.pos[p.v])
    requires forall v :: 0 <= v < |seen| && seen[v] != UNDEF ==> t.pos[v] < t.Roots()
    ensures {p} + Negated(t, got) == FinalCore(t, d, p)
  {
    var k := t.pos[p.v];
    forall n: nat ensures n in got <==> n in Support(t, d, k) {
      if DependsOn(t, d, k, n) { DependsBelow(t, d, k, n); }
    }
    assert got == Support(t, d, k);
  }

  // ---------- the first unique implication point ----------

  ghost function MarkedPlaces(t: Trail, seen: seq<nat>): set<nat> {
    set k | 0 <= k < |t.lits| && t.lits[k].v < |seen| && seen[t.lits[k].v] == SOURCE
  }

  /** The places above level 0 of the literals of a clause. */
  ghost function Mentioned(t: Trail, c: Clause, from: nat): set<nat> {
    set j | from <= j < |c| && c[j].v < |t.pos| && t.Roots() <= t.pos[c[j].v] < |t.lits| :: t.pos[c[j].v]
  }

  ghost function ReasonPlaces(t: Trail, d: Db, k: nat): set<nat> {
    if k < |t.lits| && t.lits[k].v < |t.reason| && 0 <= t.reason[t.lits[k].v] < |d.ca|
    then Mentioned(t, d.ca[t.reason[t.lits[k].v]], 1) else {}
  }

  /** Resolution from the end of the trail: the last place is replaced by those of its reason until only one place of the
      current level is left. */
  ghost function UipPlaces(t: Trail, d: Db, places: set<nat>, hi: nat): set<nat>
    decreases hi
  {
    if hi == 0 then places
    else
      var k := hi - 1;
      if k !in places then UipPlaces(t, d, places, k)
      else if forall n :: n in places && n >= t.Base() ==> n == k then places
      else UipPlaces(t, d, places - {k} + ReasonPlaces(t, d, k), k)
  }

  /** The clause learnt from `confl`: the negation of the last of these places, and of those on earlier levels that are not
      redundant. */
  ghost predicate LearntFrom(t: Trail, d: Db, confl: nat, learnt: Clause) {
    && confl < |d.ca| && |learnt| > 0
    && exists k :: LearntAt(t, d, UipPlaces(t, d, Mentioned(t, d.ca[confl], 0), |t.lits|), k, learnt)
  }

  ghost predicate LearntAt(t: Trail, d: Db, places: set<nat>, k: nat, learnt: Clause) {
    && k in places && t.Base() <= k < |t.lits| && (forall n :: n in places && n != k ==> n < t.Base() && n < |t.lits|)
    && |learnt| > 0 && learnt[0] == Neg(t.lits[k])
    && forall l :: l in learnt[1..] <==> exists n :: n in places && n != k && KeptPlace(t, d, places - {k}, n, l)
  }

  ghost predicate KeptPlace(t: Trail, d: Db, places: set<nat>, n: nat, l: Lit) {
    n < |t.lits| && l == Neg(t.lits[n]) && !Redundant(t, d, VarsAt(t, places), n)
  }

  ghost function VarsAt(t: Trail, places: set<nat>): set<nat> { set n | n in places && n < |t.lits| :: t.lits[n].v }

  lemma AbsorbedPlaces(t: Trail, before: seq<nat>, after: seq<nat>, c: Clause, from: nat)
    requires TrailOk(t) && MarksAdded(before, after, c, from) && Absorbed(t, after, c, from) && |after| == |t.pos|
    requires forall v :: 0 <= v < |after| && after[v] == SOURCE ==> t.assigns[v] != LUndef && t.Roots() <= t.pos[v]
    requires forall v :: 0 <= v < |after| && before[v] == SOURCE ==> after[v] == SOURCE
    requires forall j :: from <= j < |c| ==> t.Val(c[j]) == LFalse
    ensures MarkedPlaces(t, after) == MarkedPlaces(t, before) + Mentioned(t, c, from)
  {
    hide Limits, Levels;
    forall k | k in MarkedPlaces(t, after) ensures k in MarkedPlaces(t, before) + Mentioned(t, c, from) {
      var v := t.lits[k].v;
      if before[v] != SOURCE {
        var j :| from <= j < |c| && c[j].v == v;
        assert t.pos[c[j].v] == k;
      }
    }
    forall k | k in Mentioned(t, c, from) ensures k in MarkedPlaces(t, after) {
      var j :| from <= j < |c| && c[j].v < |t.pos| && t.pos[c[j].v] == k;
      assert t.lits[k].v == c[j].v;
    }
  }

  lemma UnmarkedPlace(t: Trail, seen: seq<nat>, k: nat)
    requires TrailOk(t) && |seen| == |t.pos| && k < |t.lits| && seen[t.lits[k].v] == SOURCE
    ensures MarkedPlaces(t, seen[t.lits[k].v := UNDEF]) == MarkedPlaces(t, seen) - {k}
  {
    hide Limits, Levels;
    forall j | 0 <= j < |t.lits| && t.lits[j].v == t.lits[k].v ensures j == k { assert t.pos[t.lits[j].v] == j; }
  }

  /** Unmarked places at the end of the trail are passed over. */
  lemma {:induction false} UipSkips(t: Trail, d: Db, places: set<nat>, hi: nat, k: nat)
    requires k <= hi && forall n :: k <= n < hi ==> n !in places
    ensures UipPlaces(t, d, places, hi) == UipPlaces(t, d, places, k)
    decreases hi
  {
    if k < hi { UipSkips(t, d, places, hi - 1, k); }
  }

  lemma UipStep(t: Trail, d: Db, places: set<nat>, k: nat)
    requires k in places
    ensures UipPlaces(t, d, places, k + 1) ==
            if forall n :: n in places && n >= t.Base() ==> n == k then places
            else UipPlaces(t, d, places - {k} + ReasonPlaces(t, d, k), k)
  {
  }

  lemma NothingMarked(t: Trail, seen: seq<nat>)
    requires Marks(t, seen, [], |t.lits|) && OpenPlaces(t, seen) == {} && TrailOk(t)
    ensures MarkedPlaces(t, seen) == {}
  {
    hide Marks, MarkedPlaces, OpenPlaces, TrailOk;
    forall k ensures k !in MarkedPlaces(t, seen) {
      if k in MarkedPlaces(t, seen) { MarkedKind(t, seen, [], k); }
    }
  }

  lemma MarkedKind(t: Trail, seen: seq<nat>, out: Clause, k: nat)
    requires Marks(t, seen, out, |t.lits|) && k in MarkedPlaces(t, seen) && TrailOk(t)
    ensures k in OpenPlaces(t, seen) || (out != [] && k < |t.lits| && t.lits[k].v in VarsOf(out))
  {
    hide Limits, Levels;
    assert t.pos[t.lits[k].v] == k;
  }

  /** No marked place is left behind the last marked literal. */
  lemma UipFound(t: Trail, d: Db, seen: seq<nat>, out: Clause, hi: nat, k: nat)
    requires TrailOk(t) && Marks(t, seen, out, hi) && t.Base() <= k < hi <= |t.lits| && seen[t.lits[k].v] == SOURCE
    requires forall j :: k < j < hi ==> seen[t.lits[j].v] == UNDEF
    ensures UipPlaces(t, d, MarkedPlaces(t, seen), hi) == UipPlaces(t, d, MarkedPlaces(t, seen), k + 1)
    ensures k in MarkedPlaces(t, seen) && MarkedPlaces(t, seen[t.lits[k].v := UNDEF]) == MarkedPlaces(t, seen) - {k}
    ensures forall n :: n in MarkedPlaces(t, seen) ==> n <= k
  {
    hide Limits, Levels, UipPlaces;
    var places := MarkedPlaces(t, seen);
    forall n | n in places ensures n <= k { assert t.pos[t.lits[n].v] == n; }
    UipSkips(t, d, places, hi, k + 1);
    UnmarkedPlace(t, seen, k);
  }

  /** It is the only one of the current level: resolution ends. */
  lemma UipEnds(t: Trail, d: Db, seen: seq<nat>, k: nat)
    requires TrailOk(t) && k < |t.lits| && |seen| == |t.pos| && k in MarkedPlaces(t, seen)
    requires MarkedPlaces(t, seen[t.lits[k].v := UNDEF]) == MarkedPlaces(t, seen) - {k}
    requires OpenPlaces(t, seen[t.lits[k].v := UNDEF]) == {}
    ensures UipPlaces(t, d, MarkedPlaces(t, seen), k + 1) == MarkedPlaces(t, seen)
    ensures forall n :: n in MarkedPlaces(t, seen) && n != k ==> n < t.Base()
  {
    hide TrailOk, UipPlaces;
    var places, s := MarkedPlaces(t, seen), seen[t.lits[k].v := UNDEF];
    forall n | n in places && n != k ensures n < t.Base() {
      MarkedIsOpen(t, s, n);
    }
    UipStep(t, d, places, k);
  }

  /** Otherwise it is replaced by the places of its reason. */
  lemma UipGoesOn(t: Trail, d: Db, before: seq<nat>, after: seq<nat>, out: Clause, k: nat)
    requires TrailOk(t) && k < |t.lits| && |before| == |after| == |t.pos| && k in MarkedPlaces(t, before)
    requires MarkedPlaces(t, before[t.lits[k].v := UNDEF]) == MarkedPlaces(t, before) - {k}
    requires OpenPlaces(t, before[t.lits[k].v := UNDEF]) != {} && 0 <= t.reason[t.lits[k].v] < |d.ca|
    requires MarksAdded(before[t.lits[k].v := UNDEF], after, d.ca[t.reason[t.lits[k].v]], 1)
    requires Absorbed(t, after, d.ca[t.reason[t.lits[k].v]], 1) && Marks(t, after, out, k)
    requires forall v :: 0 <= v < |after| && before[v] == SOURCE && v != t.lits[k].v ==> after[v] == SOURCE
    requires forall j :: 1 <= j < |d.ca[t.reason[t.lits[k].v]]| ==> t.Val(d.ca[t.reason[t.lits[k].v]][j]) == LFalse
    ensures UipPlaces(t, d, MarkedPlaces(t, before), k + 1) == UipPlaces(t, d, MarkedPlaces(t, after), k)
  {
    hide Limits, Levels, UipPlaces, MarkedPlaces, Mentioned, Absorbed, MarksAdded;
    var s := before[t.lits[k].v := UNDEF];
    AbsorbedPlaces(t, s, after, d.ca[t.reason[t.lits[k].v]], 1);
    UipStep(t, d, MarkedPlaces(t, before), k);
    OpenIsMarked(t, s, k);
  }

  lemma MarkedIsOpen(t: Trail, s: seq<nat>, n: nat)
    requires n in MarkedPlaces(t, s)
    ensures n >= t.Base() ==> n in OpenPlaces(t, s)
  {
  }

  lemma OpenIsMarked(t: Trail, s: seq<nat>, k: nat)
    requires OpenPlaces(t, s) != {}
    ensures exists n :: n in MarkedPlaces(t, s) && n >= t.Base()
  {
    var n :| n in OpenPlaces(t, s);
    assert n in MarkedPlaces(t, s);
  }
}
