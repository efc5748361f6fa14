/** The clause database of the SAT solver and its watch lists. */
module Watching {
  import opened Lbools
  import opened Literals
  import opened Trails

  /** An entry of a watch list: a clause and one of its literals that is looked at first. */
  datatype Watcher = Watcher(cref: nat, blocker: Lit)

  /** `dead` marks removed clauses, whose watchers may linger in lists marked `dirty`; `trimmed` are literals that have
      been taken out of clauses because they are false on level 0. */
  datatype Db = Db(ca: seq<Clause>, dead: seq<bool>, learnt: seq<bool>, watches: seq<seq<Watcher>>, dirty: seq<bool>,
                   trimmed: set<Lit>)
  {
    ghost predicate Live(cr: int) { 0 <= cr < |ca| && cr < |dead| && !dead[cr] }
  }

  ghost predicate ClausesOk(n: nat, d: Db) {
    && |d.dead| == |d.learnt| == |d.ca|
    && forall cr :: d.Live(cr) ==> |d.ca[cr]| >= 2 && ClauseOk(n, d.ca[cr])
  }

  ghost predicate Has(ws: seq<Watcher>, cr: int) {
    exists k :: 0 <= k < |ws| && ws[k].cref == cr
  }

  ghost predicate Distinct(ws: seq<Watcher>) {
    forall j, k :: 0 <= j < k < |ws| ==> ws[j].cref != ws[k].cref
  }

  ghost predicate EntryOk(d: Db, q: nat, w: Watcher) {
    && w.cref < |d.ca| == |d.dead| && q < |d.dirty|
    && (d.dead[w.cref] ==> d.dirty[q])
    && (!d.dead[w.cref] ==> (w.blocker in d.ca[w.cref] || w.blocker in d.trimmed) && Watched(d.ca[w.cref], q))
  }

  /** The negation of one of the first two literals of `c` has index `q`. */
  ghost predicate Watched(c: Clause, q: nat) {
    |c| >= 2 && (ToInt(Neg(c[0])) == q || ToInt(Neg(c[1])) == q)
  }

  ghost predicate EntriesOk(d: Db) {
    forall q, k :: 0 <= q < |d.watches| && 0 <= k < |d.watches[q]| ==> EntryOk(d, q, d.watches[q][k])
  }

  ghost predicate Complete(d: Db) {
    forall cr, q :: d.Live(cr) && 0 <= q < |d.watches| && Watched(d.ca[cr], q) ==> Has(d.watches[q], cr)
  }

  /** The lists hold exactly the two watchers of every live clause, besides leftovers in dirty lists. */
  ghost predicate ListsOk(n: nat, d: Db) {
    && |d.watches| == |d.dirty| == 2 * n
    && EntriesOk(d) && Complete(d)
    && forall q :: 0 <= q < |d.watches| ==> Distinct(d.watches[q])
  }

  ghost predicate DbOk(n: nat, d: Db) {
    ClausesOk(n, d) && ListsOk(n, d)
  }

  /** Some literal of `c` has been true since decision level `level` or earlier. */
  ghost predicate TrueBy(t: Trail, c: Clause, level: nat) {
    exists l :: l in c && t.Val(l) == LTrue && l.v < |t.level| && t.level[l.v] <= level
  }

  ghost predicate FalseBefore(t: Trail, l: Lit, place: nat) {
    t.Val(l) == LFalse && l.v < |t.pos| && t.pos[l.v] < place
  }

  /** Whenever a watched literal is false at a place before `place`, the clause has a true literal of no higher level.
      The clauses in `pending` are exempt for their watch with index `q`. */
  ghost predicate WatchOk(t: Trail, d: Db, place: nat, pending: set<nat>, q: nat) {
    forall cr, i :: d.Live(cr) && 0 <= i < 2 && i < |d.ca[cr]| && FalseBefore(t, d.ca[cr][i], place)
                    && !(cr in pending && ToInt(Neg(d.ca[cr][i])) == q) && d.ca[cr][i].v < |t.level| ==>
                    TrueBy(t, d.ca[cr], t.level[d.ca[cr][i].v])
  }

  /** The literal at place `k` is a decision, or implied by its reason clause: it is the first literal there, and all
      others have become false before. */
  ghost predicate ReasonAt(t: Trail, d: Db, k: nat)
    requires TrailOk(t) && k < |t.lits|
  {
    var r := t.reason[t.lits[k].v];
    if r < 0 then
      t.level[t.lits[k].v] > 0 ==> LevelAt(t, k, t.level[t.lits[k].v]) && k == t.lim[t.level[t.lits[k].v] - 1]
    else
      && d.Live(r) && |d.ca[r]| > 0 && d.ca[r][0] == t.lits[k]
      && forall j :: 1 <= j < |d.ca[r]| ==> FalseBefore(t, d.ca[r][j], k)
  }

  ghost predicate ReasonsOk(t: Trail, d: Db)
    requires TrailOk(t)
  {
    forall k :: 0 <= k < |t.lits| ==> ReasonAt(t, d, k)
  }

  /** A blocker may outlive its literal in the clause, but it never becomes true again. */
  ghost predicate TrimmedFalse(t: Trail, trimmed: set<Lit>) {
    forall l :: l in trimmed ==> FalseBefore(t, l, t.Roots())
  }

  /** The invariant of the kernel while the watch list with index `q` is being worked off. */
  ghost predicate Kernel(t: Trail, d: Db, place: nat, pending: set<nat>, q: nat) {
    && TrailOk(t) && DbOk(t.Size(), d) && ReasonsOk(t, d) && WatchOk(t, d, place, pending, q)
    && TrimmedFalse(t, d.trimmed)
  }

  function WithClause(d: Db, cr: nat, c: Clause): Db
    requires cr < |d.ca|
  {
    d.(ca := d.ca[cr := c])
  }

  /** A clause with a false first literal is nobody's reason. */
  lemma NotAReason(t: Trail, d: Db, cr: nat)
    requires TrailOk(t) && ReasonsOk(t, d) && d.Live(cr) && |d.ca[cr]| > 0 && t.Val(d.ca[cr][0]) != LTrue
    ensures forall k :: 0 <= k < |t.lits| ==> t.reason[t.lits[k].v] != cr
  {
    forall k | 0 <= k < |t.lits| ensures t.reason[t.lits[k].v] != cr { assert ReasonAt(t, d, k); }
  }

  /** Reordering a clause that is nobody's reason. */
  lemma ReasonsReordered(t: Trail, d: Db, cr: nat, c: Clause)
    requires TrailOk(t) && ReasonsOk(t, d) && d.Live(cr) && |d.ca[cr]| > 0 && t.Val(d.ca[cr][0]) != LTrue
    ensures ReasonsOk(t, WithClause(d, cr, c))
  {
    NotAReason(t, d, cr);
    forall k | 0 <= k < |t.lits| ensures ReasonAt(t, WithClause(d, cr, c), k) { assert ReasonAt(t, d, k); }
  }

  lemma TrueBySame(t: Trail, c: Clause, e: Clause, level: nat)
    requires Same(c, e) && TrueBy(t, c, level)
    ensures TrueBy(t, e, level)
  {
    var l :| l in c && t.Val(l) == LTrue && l.v < |t.level| && t.level[l.v] <= level;
    assert l in e;
  }

  /** Exchanging the two watched literals of a clause whose first literal is false. */
  lemma SwapWatches(t: Trail, d: Db, place: nat, pending: set<nat>, q: nat, cr: nat)
    requires Kernel(t, d, place, pending, q) && d.Live(cr) && t.Val(d.ca[cr][0]) == LFalse
    ensures Kernel(t, WithClause(d, cr, Swap(d.ca[cr], 0, 1)), place, pending, q)
  {
    hide TrailOk, ClauseOk, ReasonsOk, TrueBy, FalseBefore, ToInt, Neg;
    var c := d.ca[cr];
    var e := WithClause(d, cr, Swap(c, 0, 1));
    SwapOk(t.Size(), c, 0, 1);
    ReasonsReordered(t, d, cr, Swap(c, 0, 1));
    forall b, i | e.Live(b) && 0 <= i < 2 && i < |e.ca[b]| && FalseBefore(t, e.ca[b][i], place)
      && !(b in pending && ToInt(Neg(e.ca[b][i])) == q) && e.ca[b][i].v < |t.level|
      ensures TrueBy(t, e.ca[b], t.level[e.ca[b][i].v])
    {
      if b == cr {
        assert e.ca[b][i] == c[1 - i];
        TrueBySame(t, c, e.ca[b], t.level[e.ca[b][i].v]);
      }
    }
    forall p, k | 0 <= p < |e.watches| && 0 <= k < |e.watches[p]| ensures EntryOk(e, p, e.watches[p][k]) {
      assert EntryOk(d, p, d.watches[p][k]);
    }
    forall b, p | e.Live(b) && 0 <= p < |e.watches| && Watched(e.ca[b], p) ensures Has(e.watches[p], b) {
      assert Watched(d.ca[b], p);
    }
  }

  /** Only the watch lists change. */
  lemma ListsOnly(t: Trail, d: Db, e: Db, place: nat, pending: set<nat>, q: nat)
    requires Kernel(t, d, place, pending, q) && e.ca == d.ca && e.dead == d.dead && e.learnt == d.learnt && e.trimmed == d.trimmed
    requires ListsOk(t.Size(), e)
    ensures Kernel(t, e, place, pending, q)
  {
    hide TrailOk, ListsOk, ClauseOk, TrueBy, FalseBefore, ToInt, Neg;
    forall k | 0 <= k < |t.lits| ensures ReasonAt(t, e, k) { assert ReasonAt(t, d, k); }
    forall cr | e.Live(cr) ensures d.Live(cr) {}
  }

  function WithEntry(d: Db, q: nat, j: nat, w: Watcher): Db
    requires q < |d.watches| && j < |d.watches[q]|
  {
    d.(watches := d.watches[q := d.watches[q][j := w]])
  }

  /** Another literal of the clause takes the place of the blocker. */
  lemma NewBlocker(t: Trail, d: Db, place: nat, pending: set<nat>, q: nat, j: nat, w: Watcher)
    requires Kernel(t, d, place, pending, q) && q < |d.watches| && j < |d.watches[q]|
    requires w.cref == d.watches[q][j].cref && d.Live(w.cref) && w.blocker in d.ca[w.cref]
    ensures Kernel(t, WithEntry(d, q, j, w), place, pending, q)
  {
    hide TrailOk, ReasonsOk, WatchOk, ClauseOk, TrueBy, FalseBefore, ToInt, Neg, Watched;
    var e := WithEntry(d, q, j, w);
    forall p, k | 0 <= p < |e.watches| && 0 <= k < |e.watches[p]| ensures EntryOk(e, p, e.watches[p][k]) {
      assert EntryOk(d, p, d.watches[p][k]);
    }
    forall b, p | e.Live(b) && 0 <= p < |e.watches| && Watched(e.ca[b], p) ensures Has(e.watches[p], b) {
      var k :| 0 <= k < |d.watches[p]| && d.watches[p][k].cref == b;
      assert e.watches[p][k].cref == b;
    }
    ListsOnly(t, d, e, place, pending, q);
  }

  /** A clause with a true literal needs no exemption when the literal being propagated is of the current level. */
  lemma Handled(t: Trail, d: Db, place: nat, pending: set<nat>, q: nat, cr: nat)
    requires Kernel(t, d, place, pending, q) && d.Live(cr) && TrueBy(t, d.ca[cr], |t.lim|)
    requires forall l: Lit :: ToInt(Neg(l)) == q && l.v < t.Size() ==> t.level[l.v] == |t.lim|
    ensures Kernel(t, d, place, pending - {cr}, q)
  {
    hide Listed, Limits, Levels, ListsOk, ClauseOk, ReasonsOk, TrueBy, ToInt, Neg;
  }

  function Without(ws: seq<Watcher>, j: nat): seq<Watcher>
    requires j < |ws|
  {
    ws[..j] + ws[j + 1..]
  }

  /** The watcher at place `j` of list `q` moves to the list of literal `k` of the clause. */
  function Moved(d: Db, q: nat, j: nat, cr: nat, k: nat): Db
    requires q < |d.watches| && j < |d.watches[q]| && cr < |d.ca| && 1 < k < |d.ca[cr]|
    requires ToInt(Neg(d.ca[cr][k])) < |d.watches|
  {
    var h := ToInt(Neg(d.ca[cr][k]));
    var ws := d.watches[q := Without(d.watches[q], j)];
    d.(ca := d.ca[cr := Swap(d.ca[cr], 1, k)], watches := ws[h := ws[h] + [Watcher(cr, d.ca[cr][0])]])
  }

  lemma WithoutHas(ws: seq<Watcher>, j: nat, b: int)
    requires j < |ws| && Distinct(ws)
    ensures Has(Without(ws, j), b) <==> Has(ws, b) && b != ws[j].cref
    ensures Distinct(Without(ws, j))
    ensures forall k :: 0 <= k < |ws| - 1 ==> Without(ws, j)[k] == ws[if k < j then k else k + 1]
  {
    if Has(ws, b) && b != ws[j].cref {
      var k :| 0 <= k < |ws| && ws[k].cref == b;
      assert Without(ws, j)[if k < j then k else k - 1].cref == b;
    }
    if Has(Without(ws, j), b) {
      var k :| 0 <= k < |ws| - 1 && Without(ws, j)[k].cref == b;
      assert ws[if k < j then k else k + 1].cref == b;
    }
  }

  lemma AppendHas(ws: seq<Watcher>, w: Watcher, b: int)
    ensures Has(ws + [w], b) <==> Has(ws, b) || b == w.cref
    ensures Distinct(ws) && !Has(ws, w.cref) ==> Distinct(ws + [w])
  {
    var vs := ws + [w];
    if Has(ws, b) { var k :| 0 <= k < |ws| && ws[k].cref == b; assert vs[k].cref == b; }
    assert vs[|ws|] == w;
  }

  lemma ToIntInjective(l: Lit, k: Lit)
    ensures ToInt(Neg(l)) == ToInt(Neg(k)) ==> l == k
  {
  }

  /** A watcher moves: the lists stay complete. */
  lemma MovedLists(n: nat, d: Db, q: nat, j: nat, cr: nat, k: nat)
    requires DbOk(n, d) && q < 2 * n && j < |d.watches[q]| && d.watches[q][j].cref == cr && d.Live(cr)
    requires 1 < k < |d.ca[cr]| && ToInt(Neg(d.ca[cr][1])) == q && ToInt(Neg(d.ca[cr][k])) < |d.watches|
    ensures DbOk(n, Moved(d, q, j, cr, k))
  {
    hide ToInt, Neg, Has, Distinct;
    var e := Moved(d, q, j, cr, k);
    var c := d.ca[cr];
    var h := ToInt(Neg(c[k]));
    var w := Watcher(cr, c[0]);
    SwapOk(n, c, 1, k);
    ToIntInjective(c[1], c[k]);
    ToIntInjective(c[0], c[k]);
    ToIntInjective(c[1], c[0]);
    assert h != q && !Has(d.watches[h], cr) by {
      if Has(d.watches[h], cr) { NotThere(d, h, cr); }
    }
    forall p | 0 <= p < |e.watches| ensures Distinct(e.watches[p]) {
      if p == q { WithoutHas(d.watches[q], j, cr); }
      if p == h { AppendHas(d.watches[h], w, cr); }
    }
    forall b, p | e.Live(b) && 0 <= p < |e.watches| && Watched(e.ca[b], p) ensures Has(e.watches[p], b) {
      WithoutHas(d.watches[q], j, b);
      AppendHas(d.watches[h], w, b);
    }
    MovedEntries(n, d, q, j, cr, k);
  }

  lemma NotThere(d: Db, h: nat, cr: nat)
    requires EntriesOk(d) && h < |d.watches| && d.Live(cr) && Has(d.watches[h], cr)
    ensures Watched(d.ca[cr], h)
  {
    var k :| 0 <= k < |d.watches[h]| && d.watches[h][k].cref == cr;
    assert EntryOk(d, h, d.watches[h][k]);
  }

  lemma MovedEntries(n: nat, d: Db, q: nat, j: nat, cr: nat, k: nat)
    requires DbOk(n, d) && q < 2 * n && j < |d.watches[q]| && d.watches[q][j].cref == cr && d.Live(cr)
    requires 1 < k < |d.ca[cr]| && ToInt(Neg(d.ca[cr][1])) == q && ToInt(Neg(d.ca[cr][k])) < |d.watches|
    ensures EntriesOk(Moved(d, q, j, cr, k))
  {
    hide ToInt, Neg, Has, Complete, ClausesOk, Distinct;
    var e := Moved(d, q, j, cr, k);
    var c := d.ca[cr];
    SwapOk(n, c, 1, k);
    assert Distinct(d.watches[q]);
    WithoutHas(d.watches[q], j, cr);
    forall p, i | 0 <= p < |e.watches| && 0 <= i < |e.watches[p]| ensures EntryOk(e, p, e.watches[p][i]) {
      if p == ToInt(Neg(c[k])) && i == |e.watches[p]| - 1 {
      } else {
        var i' := if p == q && i >= j then i + 1 else i;
        assert e.watches[p][i] == d.watches[p][i'] && EntryOk(d, p, d.watches[p][i']);
        if p == q { OtherEntry(d.watches[q], j, i'); }
        if d.watches[p][i'].cref == cr { assert ToInt(Neg(c[0])) == p; }
      }
    }
  }

  lemma OtherEntry(ws: seq<Watcher>, j: nat, k: nat)
    requires Distinct(ws) && j < |ws| && k < |ws| && j != k
    ensures ws[j].cref != ws[k].cref
  {
  }

  lemma ListCount(n: nat, d: Db)
    requires ListsOk(n, d)
    ensures |d.watches| == |d.dirty| == 2 * n
  {
  }

  /** The propagated literal gives up its watch to literal `k`, which is not false. */
  lemma MoveWatch(t: Trail, d: Db, place: nat, pending: set<nat>, q: nat, j: nat, cr: nat, k: nat)
    requires Kernel(t, d, place, pending, q) && q < |d.watches| && j < |d.watches[q]|
    requires d.watches[q][j].cref == cr && d.Live(cr) && 1 < k < |d.ca[cr]| && ToInt(Neg(d.ca[cr][1])) == q
    requires t.Val(d.ca[cr][0]) != LTrue && t.Val(d.ca[cr][k]) != LFalse && ToInt(Neg(d.ca[cr][k])) < |d.watches|
    ensures Kernel(t, Moved(d, q, j, cr, k), place, pending - {cr}, q)
  {
    hide TrailOk, ListsOk, ClausesOk, ReasonsOk, TrueBy, ToInt, Neg;
    var c := d.ca[cr];
    var e := Moved(d, q, j, cr, k);
    ListCount(t.Size(), d);
    MovedLists(t.Size(), d, q, j, cr, k);
    SwapOk(t.Size(), c, 1, k);
    ReasonsReordered(t, d, cr, Swap(c, 1, k));
    ReasonsSame(t, WithClause(d, cr, Swap(c, 1, k)), e);
    ToIntInjective(c[0], c[1]);
    forall b, i | e.Live(b) && 0 <= i < 2 && i < |e.ca[b]| && FalseBefore(t, e.ca[b][i], place)
      && !(b in pending - {cr} && ToInt(Neg(e.ca[b][i])) == q) && e.ca[b][i].v < |t.level|
      ensures TrueBy(t, e.ca[b], t.level[e.ca[b][i].v])
    {
      if b == cr {
        assert e.ca[b][i] == c[if i == 1 then k else i];
        DistinctWatches(t.Size(), d, cr);
        TrueBySame(t, c, e.ca[b], t.level[e.ca[b][i].v]);
      }
    }
  }

  lemma DistinctWatches(n: nat, d: Db, cr: nat)
    requires ClausesOk(n, d) && d.Live(cr)
    ensures |d.ca[cr]| >= 2 && d.ca[cr][0] != d.ca[cr][1] && d.ca[cr][0].v < n && d.ca[cr][1].v < n
  {
  }

  lemma ReasonsSame(t: Trail, d: Db, e: Db)
    requires TrailOk(t) && ReasonsOk(t, d) && e.ca == d.ca && e.dead == d.dead
    ensures ReasonsOk(t, e)
  {
    forall k | 0 <= k < |t.lits| ensures ReasonAt(t, e, k) { assert ReasonAt(t, d, k); }
  }

  /** What it takes to put `l` at the end of the trail: a decision opens its level, otherwise all other literals of the
      reason clause are false. */
  ghost predicate MayEnqueue(t: Trail, d: Db, l: Lit, from: int) {
    && l.v < t.Size() && t.Val(l) == LUndef
    && if from < 0 then |t.lim| > 0 ==> t.lim[|t.lim| - 1] == |t.lits|
       else d.Live(from) && |d.ca[from]| > 0 && d.ca[from][0] == l
            && forall j :: 1 <= j < |d.ca[from]| ==> t.Val(d.ca[from][j]) == LFalse
  }

  lemma FalseSome(t: Trail, k: Lit)
    requires TrailOk(t) && t.Val(k) == LFalse
    ensures FalseBefore(t, k, |t.lits|)
  {
  }

  lemma FalseStays(t: Trail, l: Lit, from: int, k: Lit, place: nat)
    requires TrailOk(t) && l.v < t.Size() && t.Val(l) == LUndef && FalseBefore(t, k, place)
    ensures FalseBefore(Enqueued(t, l, from), k, place)
  {
  }

  lemma EnqueueReason(t: Trail, d: Db, l: Lit, from: int, k: nat)
    requires TrailOk(t) && l.v < t.Size() && t.Val(l) == LUndef && k < |t.lits| && ReasonAt(t, d, k)
    requires TrailOk(Enqueued(t, l, from))
    ensures ReasonAt(Enqueued(t, l, from), d, k)
  {
    var u := Enqueued(t, l, from);
    assert t.lits[k].v != l.v && u.lits[k] == t.lits[k];
    assert LevelAt(u, k, u.level[u.lits[k].v]);
    var r := t.reason[t.lits[k].v];
    if r >= 0 {
      forall j | 1 <= j < |d.ca[r]| ensures FalseBefore(u, d.ca[r][j], k) { FalseStays(t, l, from, d.ca[r][j], k); }
    }
  }

  lemma EnqueueReasons(t: Trail, d: Db, l: Lit, from: int)
    requires TrailOk(t) && ReasonsOk(t, d) && MayEnqueue(t, d, l, from)
    ensures TrailOk(Enqueued(t, l, from)) && ReasonsOk(Enqueued(t, l, from), d)
  {
    hide Listed, Limits, Levels, FalseBefore;
    EnqueueOk(t, l, from);
    var u := Enqueued(t, l, from);
    forall k | 0 <= k < |u.lits| ensures ReasonAt(u, d, k) {
      if k < |t.lits| {
        EnqueueReason(t, d, l, from, k);
      } else if from >= 0 {
        forall j | 1 <= j < |d.ca[from]| ensures FalseBefore(u, d.ca[from][j], k) {
          assert t.Val(d.ca[from][j]) == LFalse;
          FalseSome(t, d.ca[from][j]);
          FalseStays(t, l, from, d.ca[from][j], k);
        }
      } else if |t.lim| > 0 {
        assert LevelAt(u, k, |t.lim|);
      }
    }
  }

  lemma EnqueueFalse(t: Trail, l: Lit, from: int, k: Lit, place: nat)
    requires TrailOk(t) && l.v < t.Size() && t.Val(l) == LUndef && place <= |t.lits|
    requires FalseBefore(Enqueued(t, l, from), k, place)
    ensures FalseBefore(t, k, place) && k.v != l.v
  {
    EnqueueOk(t, l, from);
  }

  lemma EnqueueTrue(t: Trail, l: Lit, from: int, c: Clause, level: nat)
    requires TrailOk(t) && l.v < t.Size() && t.Val(l) == LUndef && TrueBy(t, c, level)
    ensures TrueBy(Enqueued(t, l, from), c, level)
  {
    EnqueueOk(t, l, from);
    var k :| k in c && t.Val(k) == LTrue && k.v < |t.level| && t.level[k.v] <= level;
    assert Enqueued(t, l, from).Val(k) == LTrue;
  }

  lemma EnqueueTrimmed(t: Trail, trimmed: set<Lit>, l: Lit, from: int)
    requires TrailOk(t) && l.v < t.Size() && t.Val(l) == LUndef && TrimmedFalse(t, trimmed)
    ensures TrimmedFalse(Enqueued(t, l, from), trimmed)
  {
    hide FalseBefore;
    var u := Enqueued(t, l, from);
    forall k | k in trimmed ensures FalseBefore(u, k, u.Roots()) {
      FalseStays(t, l, from, k, t.Roots());
      FalseLater(u, k, t.Roots(), u.Roots());
    }
  }

  /** A new literal at the end of the trail, still to be propagated. */
  lemma EnqueueKernel(t: Trail, d: Db, place: nat, pending: set<nat>, q: nat, l: Lit, from: int)
    requires Kernel(t, d, place, pending, q) && place <= |t.lits| && MayEnqueue(t, d, l, from)
    ensures Kernel(Enqueued(t, l, from), d, place, pending, q)
  {
    hide Listed, Limits, Levels, DbOk, ReasonsOk, TrueBy, FalseBefore, ToInt, Neg, Trail.Val, TrimmedFalse;
    EnqueueReasons(t, d, l, from);
    EnqueueTrimmed(t, d.trimmed, l, from);
    var u := Enqueued(t, l, from);
    forall b, i | d.Live(b) && 0 <= i < 2 && i < |d.ca[b]| && FalseBefore(u, d.ca[b][i], place)
      && !(b in pending && ToInt(Neg(d.ca[b][i])) == q) && d.ca[b][i].v < |u.level|
      ensures TrueBy(u, d.ca[b], u.level[d.ca[b][i].v])
    {
      EnqueueFalse(t, l, from, d.ca[b][i], place);
      EnqueueTrue(t, l, from, d.ca[b], t.level[d.ca[b][i].v]);
    }
  }

  ghost function Crefs(ws: seq<Watcher>): set<nat> {
    set k | 0 <= k < |ws| :: ws[k].cref
  }

  /** The next literal of the trail starts being propagated: the clauses on its list become pending. */
  lemma StartLiteral(t: Trail, d: Db, place: nat, any: nat)
    requires Kernel(t, d, place, {}, any) && place < |t.lits|
    ensures ToInt(t.lits[place]) < |d.watches|
    ensures Kernel(t, d, place + 1, Crefs(d.watches[ToInt(t.lits[place])]), ToInt(t.lits[place]))
  {
    hide ClausesOk, ReasonsOk, TrueBy;
    var p := t.lits[place];
    var q := ToInt(p);
    forall b, i | d.Live(b) && 0 <= i < 2 && i < |d.ca[b]| && FalseBefore(t, d.ca[b][i], place + 1)
      && !(b in Crefs(d.watches[q]) && ToInt(Neg(d.ca[b][i])) == q) && d.ca[b][i].v < |t.level|
      ensures TrueBy(t, d.ca[b], t.level[d.ca[b][i].v])
    {
      if t.pos[d.ca[b][i].v] == place {
        assert d.ca[b][i] == Neg(p);
        DistinctWatches(t.Size(), d, b);
      }
    }
  }

  /** A conflict: what was propagated on earlier levels is still in order. */
  lemma Conflict(t: Trail, d: Db, place: nat, pending: set<nat>, q: nat, any: nat)
    requires Kernel(t, d, place, pending, q) && t.Base() <= place
    requires forall l: Lit :: ToInt(Neg(l)) == q && l.v < t.Size() ==> t.pos[l.v] >= t.Base()
    ensures Kernel(t, d, t.Base(), {}, any)
  {
    hide ListsOk, ClausesOk, ReasonsOk, TrueBy, ToInt, Neg, Listed, Limits, Levels;
  }

  lemma NothingPending(t: Trail, d: Db, place: nat, q: nat, any: nat)
    requires Kernel(t, d, place, {}, q)
    ensures Kernel(t, d, place, {}, any)
  {
  }

  // ---------- going back ----------

  lemma CutTrue(t: Trail, level: nat, c: Clause, lv: nat)
    requires TrailOk(t) && level < |t.lim| && lv <= level && TrueBy(t, c, lv)
    ensures TrueBy(CutTo(t, level), c, lv)
  {
    var l :| l in c && t.Val(l) == LTrue && l.v < |t.level| && t.level[l.v] <= lv;
    CutValue(t, level, l);
    assert CutTo(t, level).Val(l) == LTrue;
  }

  lemma CutFalse(t: Trail, level: nat, l: Lit, place: nat)
    requires TrailOk(t) && level < |t.lim| && FalseBefore(CutTo(t, level), l, place)
    ensures FalseBefore(t, l, place) && t.pos[l.v] < t.lim[level] && t.level[l.v] <= level
  {
    CutValue(t, level, l);
  }

  lemma CutReason(t: Trail, d: Db, level: nat, k: nat)
    requires TrailOk(t) && level < |t.lim| && TrailOk(CutTo(t, level)) && k < t.lim[level] <= |t.lits| && ReasonAt(t, d, k)
    ensures ReasonAt(CutTo(t, level), d, k)
  {
    hide Limits;
    var u := CutTo(t, level);
    var r := t.reason[t.lits[k].v];
    assert LevelAt(u, k, u.level[u.lits[k].v]);
    if r >= 0 {
      forall j | 1 <= j < |d.ca[r]| ensures FalseBefore(u, d.ca[r][j], k) {
        assert FalseBefore(t, d.ca[r][j], k);
        CutValue(t, level, d.ca[r][j]);
      }
    }
  }

  lemma CutTrimmed(t: Trail, trimmed: set<Lit>, level: nat)
    requires TrailOk(t) && level < |t.lim| && TrimmedFalse(t, trimmed)
    ensures TrimmedFalse(CutTo(t, level), trimmed)
  {
    hide Listed, Levels;
    var u := CutTo(t, level);
    forall k | k in trimmed ensures FalseBefore(u, k, u.Roots()) {
      assert FalseBefore(t, k, t.Roots());
      CutValue(t, level, k);
    }
  }

  /** The watch invariant holds again after going back below the level of a conflict. */
  lemma CutKernel(t: Trail, d: Db, place: nat, level: nat)
    requires Kernel(t, d, place, {}, 0) && level < |t.lim| && t.lim[level] <= place
    ensures Kernel(CutTo(t, level), d, t.lim[level], {}, 0)
  {
    hide Listed, Levels, DbOk, TrueBy, FalseBefore, ToInt, Neg, CutTo, ReasonAt, TrimmedFalse;
    CutOk(t, level);
    CutTrimmed(t, d.trimmed, level);
    var u := CutTo(t, level);
    CutSize(t, level);
    forall k | 0 <= k < |u.lits| ensures ReasonAt(u, d, k) {
      assert ReasonAt(t, d, k);
      CutReason(t, d, level, k);
    }
    forall b, i | d.Live(b) && 0 <= i < 2 && i < |d.ca[b]| && FalseBefore(u, d.ca[b][i], t.lim[level]) && d.ca[b][i].v < |u.level|
      ensures TrueBy(u, d.ca[b], u.level[d.ca[b][i].v])
    {
      CutFalse(t, level, d.ca[b][i], t.lim[level]);
      FalseLater(t, d.ca[b][i], t.lim[level], place);
      CutTrue(t, level, d.ca[b], t.level[d.ca[b][i].v]);
    }
  }

  lemma FalseLater(t: Trail, l: Lit, place: nat, later: nat)
    requires FalseBefore(t, l, place) && place <= later
    ensures FalseBefore(t, l, later)
  {
  }

  lemma CutSize(t: Trail, level: nat)
    requires TrailOk(t) && level < |t.lim|
    ensures var u := CutTo(t, level); u.level == t.level && u.Size() == t.Size() && |u.lits| == t.lim[level]
  {
  }

  /** What a completed propagation means: no clause is left unit or false. */
  lemma Propagated(t: Trail, d: Db, cr: int)
    requires Kernel(t, d, |t.lits|, {}, 0) && d.Live(cr)
    ensures (exists l :: l in d.ca[cr] && t.Val(l) == LTrue)
         || (|d.ca[cr]| >= 2 && t.Val(d.ca[cr][0]) == LUndef && t.Val(d.ca[cr][1]) == LUndef)
  {
    var c := d.ca[cr];
    forall i | 0 <= i < 2 && t.Val(c[i]) == LFalse ensures exists l :: l in c && t.Val(l) == LTrue {
      assert FalseBefore(t, c[i], |t.lits|);
      assert TrueBy(t, c, t.level[c[i].v]);
    }
    assert c[0] in c && c[1] in c;
  }

  // ---------- new clauses ----------

  /** The database with clause `c` added and watched by its first two literals. */
  function Attached(d: Db, c: Clause, learnt: bool): Db
    requires |c| >= 2 && ToInt(Neg(c[0])) < |d.watches| && ToInt(Neg(c[1])) < |d.watches|
  {
    var p, q, cr := ToInt(Neg(c[0])), ToInt(Neg(c[1])), |d.ca|;
    var ws := d.watches[p := d.watches[p] + [Watcher(cr, c[1])]];
    d.(ca := d.ca + [c], dead := d.dead + [false], learnt := d.learnt + [learnt],
       watches := ws[q := ws[q] + [Watcher(cr, c[0])]])
  }

  lemma IndexOk(n: nat, c: Clause, k: nat)
    requires ClauseOk(n, c) && k < |c|
    ensures ToInt(Neg(c[k])) < 2 * n
    ensures forall j :: 0 <= j < |c| && j != k ==> ToInt(Neg(c[j])) != ToInt(Neg(c[k]))
  {
  }

  lemma AttachDb(n: nat, d: Db, c: Clause, learnt: bool)
    requires DbOk(n, d) && |c| >= 2 && ClauseOk(n, c)
    ensures ToInt(Neg(c[0])) < |d.watches| && ToInt(Neg(c[1])) < |d.watches| && DbOk(n, Attached(d, c, learnt))
  {
    hide Has, Distinct, ToInt, Neg, EntryOk, ClauseOk;
    IndexOk(n, c, 0);
    IndexOk(n, c, 1);
    var e, cr := Attached(d, c, learnt), |d.ca|;
    var p, q := ToInt(Neg(c[0])), ToInt(Neg(c[1]));
    assert e.watches[p] == d.watches[p] + [Watcher(cr, c[1])] && e.watches[q] == d.watches[q] + [Watcher(cr, c[0])];
    forall h | 0 <= h < |e.watches| ensures Distinct(e.watches[h]) {
      NewCref(d, h);
      AppendHas(d.watches[h], Watcher(cr, c[1]), cr);
      AppendHas(d.watches[h], Watcher(cr, c[0]), cr);
    }
    forall b, h | e.Live(b) && 0 <= h < |e.watches| && Watched(e.ca[b], h) ensures Has(e.watches[h], b) {
      AppendHas(d.watches[h], Watcher(cr, c[1]), b);
      AppendHas(d.watches[h], Watcher(cr, c[0]), b);
      assert b < cr ==> d.Live(b);
    }
    forall h, k | 0 <= h < |e.watches| && 0 <= k < |e.watches[h]| ensures EntryOk(e, h, e.watches[h][k]) {
      if k < |d.watches[h]| {
        assert e.watches[h][k] == d.watches[h][k];
        EntryStays(d, e, h, d.watches[h][k]);
      } else {
        NewEntry(e, h, c, e.watches[h][k]);
      }
    }
  }

  lemma NewCref(d: Db, h: nat)
    requires EntriesOk(d) && h < |d.watches|
    ensures !Has(d.watches[h], |d.ca|)
  {
    forall k | 0 <= k < |d.watches[h]| ensures d.watches[h][k].cref != |d.ca| { assert EntryOk(d, h, d.watches[h][k]); }
  }

  lemma EntryStays(d: Db, e: Db, h: nat, w: Watcher)
    requires EntryOk(d, h, w) && |e.ca| == |e.dead| && d.ca <= e.ca && d.dead <= e.dead && e.dirty == d.dirty && e.trimmed == d.trimmed
    ensures EntryOk(e, h, w)
  {
    assert e.ca[w.cref] == d.ca[w.cref] && e.dead[w.cref] == d.dead[w.cref];
  }

  lemma NewEntry(e: Db, h: nat, c: Clause, w: Watcher)
    requires |e.ca| == |e.dead| > 0 && w.cref == |e.ca| - 1 && h < |e.dirty| && e.ca[w.cref] == c && !e.dead[w.cref]
    requires |c| >= 2 && (w.blocker == c[0] || w.blocker == c[1]) && Watched(c, h)
    ensures EntryOk(e, h, w)
  {
  }

  lemma AttachReasons(t: Trail, d: Db, e: Db)
    requires TrailOk(t) && ReasonsOk(t, d) && |d.dead| == |d.ca| && |e.dead| == |e.ca| && d.ca <= e.ca && d.dead <= e.dead
    ensures ReasonsOk(t, e)
  {
    forall k | 0 <= k < |t.lits| ensures ReasonAt(t, e, k) {
      assert ReasonAt(t, d, k);
      var r := t.reason[t.lits[k].v];
      if r >= 0 { assert e.ca[r] == d.ca[r] && e.dead[r] == d.dead[r]; }
    }
  }

  /** Adding a clause keeps the invariant if its watches are not false, or exempt, or a literal is true early enough. */
  lemma AttachKernel(t: Trail, d: Db, place: nat, c: Clause, learnt: bool, pending: set<nat>, q: nat)
    requires Kernel(t, d, place, {}, 0) && |c| >= 2 && ClauseOk(t.Size(), c)
    requires forall i :: 0 <= i < 2 && FalseBefore(t, c[i], place) && c[i].v < |t.level| ==>
               (|d.ca| in pending && ToInt(Neg(c[i])) == q) || TrueBy(t, c, t.level[c[i].v])
    ensures ToInt(Neg(c[0])) < |d.watches| && ToInt(Neg(c[1])) < |d.watches|
    ensures Kernel(t, Attached(d, c, learnt), place, pending, q)
  {
    hide TrailOk, ListsOk, ReasonsOk, TrueBy, FalseBefore, ToInt, Neg, ClauseOk;
    AttachDb(t.Size(), d, c, learnt);
    var e := Attached(d, c, learnt);
    AttachReasons(t, d, e);
    forall b | e.Live(b) ensures if b == |d.ca| then e.ca[b] == c else d.Live(b) && e.ca[b] == d.ca[b] {}
  }

  /** The learnt clause after going back: its first literal is implied by the others. */
  lemma LearnKernel(t: Trail, d: Db, c: Clause, u: Trail)
    requires Kernel(t, d, |t.lits|, {}, 0) && |c| >= 2 && ClauseOk(t.Size(), c) && t.Val(c[0]) == LUndef
    requires (forall k :: 1 <= k < |c| ==> t.Val(c[k]) == LFalse) && t.level[c[1].v] == |t.lim|
    requires u == Enqueued(t, c[0], |d.ca|)
    ensures ToInt(Neg(c[0])) < |d.watches| && ToInt(Neg(c[1])) < |d.watches|
    ensures var e := Attached(d, c, true); MayEnqueue(t, e, c[0], |d.ca|) && Kernel(u, e, |t.lits|, {}, 0)
  {
    hide Listed, Limits, Levels, ListsOk, ReasonsOk, WatchOk, ToInt, Neg;
    var cr, q := |d.ca|, ToInt(Neg(c[1]));
    AttachKernel(t, d, |t.lits|, c, true, {cr}, q);
    var e := Attached(d, c, true);
    assert e.ca[cr] == c && e.Live(cr);
    EnqueueKernel(t, e, |t.lits|, {cr}, q, c[0], cr);
    EnqueueOk(t, c[0], cr);
    assert TrueBy(u, c, |u.lim|) by { assert c[0] in c && u.Val(c[0]) == LTrue; }
    OnlyIndex(c[1]);
    Handled(u, e, |t.lits|, {cr}, q, cr);
    assert {cr} - {cr} == {};
    NothingPending(u, e, |t.lits|, q, 0);
  }

  lemma OnlyIndex(k: Lit)
    ensures forall l: Lit :: ToInt(Neg(l)) == ToInt(Neg(k)) ==> l == k
  {
  }

  lemma NewLevelKernel(t: Trail, d: Db, place: nat)
    requires Kernel(t, d, place, {}, 0)
    ensures Kernel(NewLevel(t), d, place, {}, 0)
  {
    hide DbOk;
    NewLevelOk(t);
    var u := NewLevel(t);
    forall k | 0 <= k < |u.lits| ensures ReasonAt(u, d, k) {
      assert ReasonAt(t, d, k) && LevelAt(t, k, t.level[t.lits[k].v]) && LevelAt(u, k, u.level[u.lits[k].v]);
      var r := t.reason[t.lits[k].v];
      if r >= 0 {
        forall j | 1 <= j < |d.ca[r]| ensures FalseBefore(u, d.ca[r][j], k) { assert FalseBefore(t, d.ca[r][j], k); }
      }
    }
    forall c, lv: nat ensures TrueBy(t, c, lv) ==> TrueBy(u, c, lv) {
      if TrueBy(t, c, lv) {
        var l :| l in c && t.Val(l) == LTrue && l.v < |t.level| && t.level[l.v] <= lv;
        assert u.Val(l) == LTrue;
      }
    }
    forall l, at: nat ensures FalseBefore(u, l, at) ==> FalseBefore(t, l, at) {}
  }

  // ---------- removed clauses ----------

  /** Clause `cr` is the reason of its first literal. */
  predicate Locked(t: Trail, d: Db, cr: nat) {
    cr < |d.ca| && |d.ca[cr]| > 0 && d.ca[cr][0].v < |t.reason| && t.Val(d.ca[cr][0]) == LTrue && t.reason[d.ca[cr][0].v] == cr
  }

  /** The clause is marked, its two watch lists are to be cleaned when they are next looked at. */
  function Removed(d: Db, cr: nat): Db
    requires cr < |d.ca| == |d.dead| && |d.ca[cr]| >= 2
    requires ToInt(Neg(d.ca[cr][0])) < |d.dirty| && ToInt(Neg(d.ca[cr][1])) < |d.dirty|
  {
    d.(dead := d.dead[cr := true], dirty := d.dirty[ToInt(Neg(d.ca[cr][0])) := true][ToInt(Neg(d.ca[cr][1])) := true])
  }

  function Unlocked(t: Trail, d: Db, cr: nat): Trail {
    if Locked(t, d, cr) then t.(reason := t.reason[d.ca[cr][0].v := -1]) else t
  }

  lemma RemoveLists(n: nat, d: Db, cr: nat)
    requires DbOk(n, d) && d.Live(cr)
    ensures |d.ca[cr]| >= 2 && ToInt(Neg(d.ca[cr][0])) < |d.dirty| && ToInt(Neg(d.ca[cr][1])) < |d.dirty|
    ensures DbOk(n, Removed(d, cr))
  {
    hide Has, Distinct, ToInt, Neg, ClauseOk;
    IndexOk(n, d.ca[cr], 0);
    IndexOk(n, d.ca[cr], 1);
    var e := Removed(d, cr);
    forall q, k | 0 <= q < |e.watches| && 0 <= k < |e.watches[q]| ensures EntryOk(e, q, e.watches[q][k]) {
      assert EntryOk(d, q, d.watches[q][k]);
    }
    forall b | e.Live(b) ensures d.Live(b) && e.ca[b] == d.ca[b] {}
  }

  lemma RemoveReasons(t: Trail, d: Db, cr: nat)
    requires Kernel(t, d, |t.lits|, {}, 0) && d.Live(cr) && |d.ca[cr]| >= 2 && |d.ca| == |d.dead|
    requires ToInt(Neg(d.ca[cr][0])) < |d.dirty| && ToInt(Neg(d.ca[cr][1])) < |d.dirty|
    requires Locked(t, d, cr) ==> t.level[d.ca[cr][0].v] == 0
    ensures TrailOk(Unlocked(t, d, cr)) && ReasonsOk(Unlocked(t, d, cr), Removed(d, cr))
  {
    hide DbOk, WatchOk, ToInt, Neg;
    var u, e := Unlocked(t, d, cr), Removed(d, cr);
    forall k | 0 <= k < |u.lits| ensures LevelAt(u, k, u.level[u.lits[k].v]) { assert LevelAt(t, k, t.level[t.lits[k].v]); }
    forall k | 0 <= k < |u.lits| ensures ReasonAt(u, e, k) {
      assert ReasonAt(t, d, k);
      var r := t.reason[t.lits[k].v];
      if r >= 0 && r != cr {
        forall j | 1 <= j < |d.ca[r]| ensures FalseBefore(u, d.ca[r][j], k) { assert FalseBefore(t, d.ca[r][j], k); }
      }
    }
  }

  lemma RemoveKernel(t: Trail, d: Db, cr: nat)
    requires Kernel(t, d, |t.lits|, {}, 0) && d.Live(cr)
    requires Locked(t, d, cr) ==> t.level[d.ca[cr][0].v] == 0
    ensures |d.ca[cr]| >= 2 && ToInt(Neg(d.ca[cr][0])) < |d.dirty| && ToInt(Neg(d.ca[cr][1])) < |d.dirty|
    ensures Kernel(Unlocked(t, d, cr), Removed(d, cr), |t.lits|, {}, 0)
  {
    hide Listed, Limits, Levels, ListsOk, ReasonsOk, ToInt, Neg;
    RemoveLists(t.Size(), d, cr);
    RemoveReasons(t, d, cr);
    var u, e := Unlocked(t, d, cr), Removed(d, cr);
    forall b | e.Live(b) ensures d.Live(b) && e.ca[b] == d.ca[b] {}
    forall c, lv: nat ensures TrueBy(t, c, lv) ==> TrueBy(u, c, lv) {
      if TrueBy(t, c, lv) {
        var l :| l in c && t.Val(l) == LTrue && l.v < |t.level| && t.level[l.v] <= lv;
        assert u.Val(l) == LTrue;
      }
    }
    forall l, at: nat ensures FalseBefore(u, l, at) ==> FalseBefore(t, l, at) {}
  }

  // ---------- trimmed clauses ----------

  /** Clause `c` is `b` without the literals in `gone`, which are false on level 0; the watched literals stay. */
  ghost predicate TrimmedTo(t: Trail, b: Clause, c: Clause, gone: set<Lit>) {
    && 2 <= |c| && |b| >= 2 && c[0] == b[0] && c[1] == b[1] && ClauseOk(t.Size(), c) && TrimmedFalse(t, gone)
    && (forall l :: l in c ==> l in b) && forall l :: l in b && l !in c ==> l in gone
  }

  ghost function Trimmed(d: Db, cr: nat, c: Clause, gone: set<Lit>): Db
    requires cr < |d.ca|
  {
    d.(ca := d.ca[cr := c], trimmed := d.trimmed + gone)
  }

  lemma TrimLists(n: nat, d: Db, cr: nat, c: Clause, gone: set<Lit>)
    requires DbOk(n, d) && d.Live(cr) && 2 <= |c| && c[0] == d.ca[cr][0] && c[1] == d.ca[cr][1] && ClauseOk(n, c)
    requires forall l :: l in d.ca[cr] && l !in c ==> l in gone
    ensures DbOk(n, Trimmed(d, cr, c, gone))
  {
    hide Has, Distinct, ToInt, Neg, ClauseOk;
    var e := Trimmed(d, cr, c, gone);
    forall b | e.Live(b) ensures d.Live(b) && (b != cr ==> e.ca[b] == d.ca[b]) {}
    forall b, p | e.Live(b) && 0 <= p < |e.watches| && Watched(e.ca[b], p) ensures Has(e.watches[p], b) {
      assert Watched(d.ca[b], p);
    }
    forall p, k | 0 <= p < |e.watches| && 0 <= k < |e.watches[p]| ensures EntryOk(e, p, e.watches[p][k]) {
      assert EntryOk(d, p, d.watches[p][k]);
    }
  }

  /** Trimming a clause with two open watched literals keeps the invariant, though a blocker may be among what goes. */
  lemma TrimKernel(t: Trail, d: Db, cr: nat, c: Clause, gone: set<Lit>)
    requires Kernel(t, d, |t.lits|, {}, 0) && d.Live(cr) && TrimmedTo(t, d.ca[cr], c, gone)
    requires t.Val(c[0]) == LUndef && t.Val(c[1]) == LUndef
    ensures Kernel(t, Trimmed(d, cr, c, gone), |t.lits|, {}, 0)
  {
    hide TrailOk, ListsOk, ClauseOk, ReasonsOk, TrueBy, ToInt, Neg;
    var e := Trimmed(d, cr, c, gone);
    TrimLists(t.Size(), d, cr, c, gone);
    ReasonsReordered(t, d, cr, c);
    ReasonsSame(t, WithClause(d, cr, c), e);
    forall b | e.Live(b) ensures d.Live(b) && (b != cr ==> e.ca[b] == d.ca[b]) {}
  }

  // ---------- released variables ----------

  /** The literals of other variables, in their order. */
  function Others(lits: seq<Lit>, vs: set<nat>): (r: seq<Lit>)
    ensures |r| <= |lits|
  {
    if lits == [] then []
    else
      var n := |lits| - 1;
      if lits[n].v in vs then Others(lits[..n], vs) else Others(lits[..n], vs) + [lits[n]]
  }

  /** Every literal that stays moves to the place that counts those before it. */
  lemma {:induction false} OthersAt(lits: seq<Lit>, vs: set<nat>, k: nat)
    requires k < |lits| && lits[k].v !in vs
    ensures |Others(lits[..k], vs)| < |Others(lits, vs)| && Others(lits, vs)[|Others(lits[..k], vs)|] == lits[k]
  {
    var n := |lits| - 1;
    if k < n {
      assert lits[..n][..k] == lits[..k];
      OthersAt(lits[..n], vs, k);
    }
  }

  lemma {:induction false} OthersFrom(lits: seq<Lit>, vs: set<nat>, i: nat) returns (k: nat)
    requires i < |Others(lits, vs)|
    ensures k < |lits| && lits[k].v !in vs && |Others(lits[..k], vs)| == i && Others(lits, vs)[i] == lits[k]
  {
    var n := |lits| - 1;
    if i < |Others(lits[..n], vs)| {
      k := OthersFrom(lits[..n], vs, i);
      assert lits[..n][..k] == lits[..k];
    } else {
      k := n;
    }
  }

  lemma {:induction false} OthersMono(lits: seq<Lit>, vs: set<nat>, j: nat, k: nat)
    requires j <= k <= |lits|
    ensures |Others(lits[..j], vs)| <= |Others(lits[..k], vs)|
    decreases k
  {
    if j < k {
      assert lits[..k][..k - 1] == lits[..k - 1];
      OthersMono(lits, vs, j, k - 1);
    }
  }

  /** The variables `vs` leave the trail of level 0 and lose their values. */
  ghost function Recycled(t: Trail, vs: set<nat>): Trail
    requires Sizes(t)
  {
    t.(assigns := seq(|t.assigns|, v requires 0 <= v < |t.assigns| => if v in vs then LUndef else t.assigns[v]),
       reason := seq(|t.reason|, v requires 0 <= v < |t.reason| => if v in vs then -1 else t.reason[v]),
       pos := seq(|t.pos|, v requires 0 <= v < |t.pos| => if t.pos[v] < |t.lits| then |Others(t.lits[..t.pos[v]], vs)| else t.pos[v]),
       lits := Others(t.lits, vs))
  }

  ghost predicate Unmentioned(d: Db, vs: set<nat>) {
    forall cr, l :: d.Live(cr) && l in d.ca[cr] ==> l.v !in vs
  }

  /** No watcher of a live clause looks first at one of the variables. */
  ghost predicate NoBlocker(d: Db, vs: set<nat>) {
    forall q, i :: 0 <= q < |d.watches| && 0 <= i < |d.watches[q]| && d.Live(d.watches[q][i].cref) ==> d.watches[q][i].blocker.v !in vs
  }

  ghost function Untrimmed(trimmed: set<Lit>, vs: set<nat>): set<Lit> { set l | l in trimmed && l.v !in vs }

  lemma RecycledOk(t: Trail, vs: set<nat>)
    requires TrailOk(t) && t.lim == []
    ensures TrailOk(Recycled(t, vs))
  {
    var u := Recycled(t, vs);
    forall i | 0 <= i < |u.lits| ensures u.lits[i].v < |u.assigns| && u.Val(u.lits[i]) == LTrue && u.pos[u.lits[i].v] == i {
      var k := OthersFrom(t.lits, vs, i);
    }
    forall v | 0 <= v < |u.assigns| && u.assigns[v] != LUndef ensures u.pos[v] < |u.lits| && u.lits[u.pos[v]].v == v {
      OthersAt(t.lits, vs, t.pos[v]);
    }
    forall k | 0 <= k < |u.lits| ensures LevelAt(u, k, u.level[u.lits[k].v]) {
      var n := OthersFrom(t.lits, vs, k);
      assert LevelAt(t, n, t.level[t.lits[n].v]);
    }
  }

  lemma OthersBefore(lits: seq<Lit>, vs: set<nat>, j: nat, k: nat)
    requires j < k <= |lits| && lits[j].v !in vs
    ensures |Others(lits[..j], vs)| < |Others(lits[..k], vs)|
  {
    OthersMono(lits, vs, j + 1, k);
    assert lits[..j + 1][..j] == lits[..j];
  }

  lemma RecycledFalse(t: Trail, vs: set<nat>, l: Lit, k: nat)
    requires TrailOk(t) && l.v !in vs && k <= |t.lits|
    ensures FalseBefore(t, l, k) ==> FalseBefore(Recycled(t, vs), l, |Others(t.lits[..k], vs)|)
    ensures Recycled(t, vs).Val(l) == t.Val(l)
  {
    if FalseBefore(t, l, k) { OthersBefore(t.lits, vs, t.pos[l.v], k); }
  }

  lemma RecycledReasons(t: Trail, d: Db, e: Db, vs: set<nat>)
    requires TrailOk(t) && ReasonsOk(t, d) && t.lim == [] && Unmentioned(d, vs) && TrailOk(Recycled(t, vs))
    requires e.ca == d.ca && e.dead == d.dead
    ensures ReasonsOk(Recycled(t, vs), e)
  {
    hide Listed, Limits, Levels;
    var u := Recycled(t, vs);
    forall i | 0 <= i < |u.lits| ensures ReasonAt(u, e, i) {
      var k := OthersFrom(t.lits, vs, i);
      RecycledReason(t, d, e, vs, i, k);
    }
  }

  lemma RecycledReason(t: Trail, d: Db, e: Db, vs: set<nat>, i: nat, k: nat)
    requires TrailOk(t) && ReasonsOk(t, d) && t.lim == [] && Unmentioned(d, vs) && TrailOk(Recycled(t, vs))
    requires e.ca == d.ca && e.dead == d.dead && i < |Others(t.lits, vs)|
    requires k < |t.lits| && t.lits[k].v !in vs && |Others(t.lits[..k], vs)| == i && Others(t.lits, vs)[i] == t.lits[k]
    ensures ReasonAt(Recycled(t, vs), e, i)
  {
    assert ReasonAt(t, d, k);
    var v := t.lits[k].v;
    assert LevelAt(t, k, t.level[v]);
    var r := t.reason[v];
    if r >= 0 {
      forall j | 1 <= j < |d.ca[r]| ensures FalseBefore(Recycled(t, vs), d.ca[r][j], i) {
        assert d.Live(r) && d.ca[r][j] in d.ca[r];
        RecycledFalse(t, vs, d.ca[r][j], k);
      }
    }
  }

  lemma RecycledTrue(t: Trail, vs: set<nat>, c: Clause, level: nat)
    requires TrailOk(t) && TrueBy(t, c, level) && forall l :: l in c ==> l.v !in vs
    ensures TrueBy(Recycled(t, vs), c, level)
  {
    var l :| l in c && t.Val(l) == LTrue && l.v < |t.level| && t.level[l.v] <= level;
    RecycledFalse(t, vs, l, 0);
    assert Recycled(t, vs).Val(l) == LTrue;
  }

  lemma RecycledWatches(t: Trail, d: Db, e: Db, vs: set<nat>)
    requires TrailOk(t) && WatchOk(t, d, |t.lits|, {}, 0) && t.lim == [] && Unmentioned(d, vs)
    requires e.ca == d.ca && e.dead == d.dead
    ensures WatchOk(Recycled(t, vs), e, |Others(t.lits, vs)|, {}, 0)
  {
    hide TrueBy;
    var u := Recycled(t, vs);
    forall cr, i | e.Live(cr) && 0 <= i < 2 && i < |e.ca[cr]| && FalseBefore(u, e.ca[cr][i], |u.lits|) && e.ca[cr][i].v < |u.level|
      ensures TrueBy(u, e.ca[cr], u.level[e.ca[cr][i].v])
    {
      var l := e.ca[cr][i];
      assert d.Live(cr) && l in d.ca[cr];
      RecycledFalse(t, vs, l, 0);
      assert FalseBefore(t, l, |t.lits|);
      RecycledTrue(t, vs, d.ca[cr], t.level[l.v]);
    }
  }

  lemma RecycledLists(n: nat, d: Db, vs: set<nat>)
    requires DbOk(n, d) && Unmentioned(d, vs) && NoBlocker(d, vs)
    ensures DbOk(n, d.(trimmed := Untrimmed(d.trimmed, vs)))
  {
    hide Distinct, Has, ClauseOk, Watched;
    var e := d.(trimmed := Untrimmed(d.trimmed, vs));
    forall q, k | 0 <= q < |e.watches| && 0 <= k < |e.watches[q]| ensures EntryOk(e, q, e.watches[q][k]) {
      assert EntryOk(d, q, d.watches[q][k]);
    }
    forall cr | e.Live(cr) ensures d.Live(cr) {}
  }

  /** Variables without clauses can be used again, with the invariant kept, if and only if no live clause has one of them
      as a blocker. */
  lemma RecycleKernel(t: Trail, d: Db, vs: set<nat>)
    requires Kernel(t, d, |t.lits|, {}, 0) && t.lim == [] && Unmentioned(d, vs)
    ensures NoBlocker(d, vs) ==> Kernel(Recycled(t, vs), d.(trimmed := Untrimmed(d.trimmed, vs)), |Others(t.lits, vs)|, {}, 0)
    ensures (exists trimmed :: Kernel(Recycled(t, vs), d.(trimmed := trimmed), |Others(t.lits, vs)|, {}, 0)) <==> NoBlocker(d, vs)
  {
    hide Listed, Limits, Levels, DbOk, ReasonsOk, WatchOk, Unmentioned, NoBlocker, TrimmedFalse;
    var u := Recycled(t, vs);
    RecycledOk(t, vs);
    if NoBlocker(d, vs) {
      var e := d.(trimmed := Untrimmed(d.trimmed, vs));
      RecycledLists(t.Size(), d, vs);
      RecycledReasons(t, d, e, vs);
      RecycledWatches(t, d, e, vs);
      RecycledTrimmed(t, d.trimmed, vs);
      assert Kernel(u, e, |u.lits|, {}, 0);
    }
    forall trimmed | Kernel(u, d.(trimmed := trimmed), |u.lits|, {}, 0) ensures NoBlocker(d, vs) {
      BlockerLost(t, d, vs, trimmed);
    }
  }

  lemma RecycledTrimmed(t: Trail, trimmed: set<Lit>, vs: set<nat>)
    requires TrailOk(t) && t.lim == [] && TrimmedFalse(t, trimmed)
    ensures TrimmedFalse(Recycled(t, vs), Untrimmed(trimmed, vs))
  {
    forall l | l in Untrimmed(trimmed, vs) ensures FalseBefore(Recycled(t, vs), l, |Others(t.lits, vs)|) {
      RecycledFalse(t, vs, l, |t.lits|);
      assert t.lits[..|t.lits|] == t.lits;
    }
  }

  lemma BlockerLost(t: Trail, d: Db, vs: set<nat>, trimmed: set<Lit>)
    requires Sizes(t) && Unmentioned(d, vs) && Kernel(Recycled(t, vs), d.(trimmed := trimmed), |Others(t.lits, vs)|, {}, 0)
    ensures NoBlocker(d, vs)
  {
    hide TrailOk, ReasonsOk, WatchOk, ClausesOk;
    var e, u := d.(trimmed := trimmed), Recycled(t, vs);
    forall q, i | 0 <= q < |d.watches| && 0 <= i < |d.watches[q]| && d.Live(d.watches[q][i].cref)
      ensures d.watches[q][i].blocker.v !in vs
    {
      var w := e.watches[q][i];
      assert EntryOk(e, q, w);
      if w.blocker in trimmed { assert FalseBefore(u, w.blocker, u.Roots()); }
    }
  }

  /** What is left behind when a clause of three literals is added, the first of them becomes false for good and is
      trimmed: the watcher of the second still looks at the first. */
  function TrimmedTrail(): Trail { Trail([LTrue, LUndef, LUndef], [-1, -1, -1], [0, 0, 0], [0, 0, 0], [Lit(0, false)], []) }

  function TrimmedDb(): Db {
    Db([[Lit(1, false), Lit(2, false)]], [false], [false],
       [[], [], [], [Watcher(0, Lit(0, true))], [], [Watcher(0, Lit(1, false))]],
       [false, false, false, false, false, false], {Lit(0, true)})
  }

  lemma TrimmedPair(l: Lit)
    ensures l in TrimmedDb().ca[0] <==> l == Lit(1, false) || l == Lit(2, false)
  {
    assert TrimmedDb().ca[0][0] == Lit(1, false) && TrimmedDb().ca[0][1] == Lit(2, false);
  }

  lemma TrimmedLists()
    ensures DbOk(3, TrimmedDb())
  {
    var d := TrimmedDb();
    TrimmedPair(Lit(1, false));
    assert d.watches[3][0].cref == 0 && d.watches[5][0].cref == 0;
    assert Has(d.watches[3], 0) && Has(d.watches[5], 0);
    forall cr, q | d.Live(cr) && 0 <= q < |d.watches| && Watched(d.ca[cr], q) ensures Has(d.watches[q], cr) {}
  }

  lemma TrimmedTrailOk()
    ensures TrailOk(TrimmedTrail()) && FalseBefore(TrimmedTrail(), Lit(0, true), 1)
  {
    assert LevelAt(TrimmedTrail(), 0, 0);
  }

  lemma TrimmedKernel()
    ensures Kernel(TrimmedTrail(), TrimmedDb(), 1, {}, 0)
  {
    hide DbOk, Listed, Limits, Levels;
    var t, d := TrimmedTrail(), TrimmedDb();
    TrimmedTrailOk();
    TrimmedLists();
  }

  /** The invariant holds in this state, but not once variable 0 is used again. */
  lemma StaleBlocker()
    ensures var t, d := TrimmedTrail(), TrimmedDb();
            Kernel(t, d, |t.lits|, {}, 0) && t.lim == [] && Unmentioned(d, {0}) && !NoBlocker(d, {0})
  {
    hide Kernel;
    var d := TrimmedDb();
    TrimmedKernel();
    forall l ensures l in d.ca[0] <==> l == Lit(1, false) || l == Lit(2, false) { TrimmedPair(l); }
    assert d.watches[3][0].blocker == Lit(0, true) && d.Live(0);
  }

  /** A caller can make sure of that beforehand: it releases literals whose negation is in no clause and has never been
      trimmed. */
  lemma ReleasedApart(t: Trail, d: Db, vs: set<nat>)
    requires Kernel(t, d, |t.lits|, {}, 0) && t.lim == [] && Unmentioned(d, vs)
    requires forall k :: 0 <= k < |t.lits| && t.lits[k].v in vs ==> Neg(t.lits[k]) !in d.trimmed
    ensures NoBlocker(d, vs)
  {
    hide ReasonsOk, WatchOk, ClausesOk;
    forall q, i | 0 <= q < |d.watches| && 0 <= i < |d.watches[q]| && d.Live(d.watches[q][i].cref)
      ensures d.watches[q][i].blocker.v !in vs
    {
      var w := d.watches[q][i];
      assert EntryOk(d, q, w);
      if w.blocker in d.trimmed {
        assert FalseBefore(t, w.blocker, t.Roots());
        assert t.lits[t.pos[w.blocker.v]] == Neg(w.blocker) && Neg(Neg(w.blocker)) == w.blocker;
      }
    }
  }

  /** One more variable, with two empty watch lists. */
  ghost function Wider(t: Trail): Trail {
    t.(assigns := t.assigns + [LUndef], reason := t.reason + [-1], level := t.level + [0], pos := t.pos + [0])
  }

  ghost function WiderDb(d: Db): Db { d.(watches := d.watches + [[], []], dirty := d.dirty + [false, false]) }

  lemma WiderValues(t: Trail, l: Lit)
    ensures Wider(t).Val(l) == t.Val(l)
  {
  }

  lemma WiderDbOk(n: nat, d: Db)
    requires DbOk(n, d)
    ensures DbOk(n + 1, WiderDb(d))
  {
    hide Has;
    var e := WiderDb(d);
    forall q, k | 0 <= q < |e.watches| && 0 <= k < |e.watches[q]| ensures EntryOk(e, q, e.watches[q][k]) {
      assert EntryOk(d, q, d.watches[q][k]);
    }
    forall cr, q | e.Live(cr) && 0 <= q < |e.watches| && Watched(e.ca[cr], q) ensures Has(e.watches[q], cr) {
      assert d.Live(cr) && Watched(d.ca[cr], q);
      IndexOk(n, d.ca[cr], 0);
      IndexOk(n, d.ca[cr], 1);
    }
  }

  lemma WiderTrail(t: Trail)
    requires TrailOk(t)
    ensures TrailOk(Wider(t))
  {
    var u := Wider(t);
    forall k | 0 <= k < |u.lits| ensures LevelAt(u, k, u.level[u.lits[k].v]) { assert LevelAt(t, k, t.level[t.lits[k].v]); }
  }

  /** A new variable keeps the invariant. */
  lemma WiderKernel(t: Trail, d: Db, place: nat)
    requires Kernel(t, d, place, {}, 0)
    ensures Kernel(Wider(t), WiderDb(d), place, {}, 0)
  {
    hide DbOk, Listed, Limits, Levels, Trail.Val;
    var u, e := Wider(t), WiderDb(d);
    WiderDbOk(t.Size(), d);
    WiderTrail(t);
    forall l ensures u.Val(l) == t.Val(l) { WiderValues(t, l); }
    WiderFalse(t);
    WiderReasons(t, d);
    forall cr, i | e.Live(cr) && 0 <= i < 2 && i < |e.ca[cr]| && FalseBefore(u, e.ca[cr][i], place) && e.ca[cr][i].v < |u.level|
      ensures TrueBy(u, e.ca[cr], u.level[e.ca[cr][i].v])
    {
      assert d.Live(cr) && FalseBefore(t, d.ca[cr][i], place);
    }
  }

  lemma WiderFalse(t: Trail)
    requires TrailOk(t)
    ensures forall l, at :: FalseBefore(Wider(t), l, at) <==> FalseBefore(t, l, at)
    ensures forall c, level: nat :: TrueBy(Wider(t), c, level) <==> TrueBy(t, c, level)
  {
    hide Listed, Limits, Levels;
    var u := Wider(t);
    forall c, level: nat ensures TrueBy(u, c, level) <==> TrueBy(t, c, level) {
      if TrueBy(t, c, level) {
        var l :| l in c && t.Val(l) == LTrue && l.v < |t.level| && t.level[l.v] <= level;
        assert u.Val(l) == LTrue;
      }
      if TrueBy(u, c, level) {
        var l :| l in c && u.Val(l) == LTrue && l.v < |u.level| && u.level[l.v] <= level;
        assert t.Val(l) == LTrue;
      }
    }
  }

  lemma WiderReasons(t: Trail, d: Db)
    requires TrailOk(t) && ReasonsOk(t, d) && TrailOk(Wider(t))
    ensures ReasonsOk(Wider(t), WiderDb(d))
  {
    hide FalseBefore;
    WiderFalse(t);
    forall k | 0 <= k < |t.lits| ensures ReasonAt(Wider(t), WiderDb(d), k) {
      assert ReasonAt(t, d, k);
      assert t.level[t.lits[k].v] > 0 && t.reason[t.lits[k].v] < 0 ==> LevelAt(t, k, t.level[t.lits[k].v]);
    }
  }

  /** The watch lists of both literals of `v` are emptied. */
  ghost function Emptied(d: Db, v: nat): Db
    requires 2 * v + 1 < |d.watches|
  {
    d.(watches := d.watches[2 * v := []][2 * v + 1 := []])
  }

  lemma EmptiedKernel(t: Trail, d: Db, place: nat, v: nat)
    requires Kernel(t, d, place, {}, 0) && v < t.Size() && Unmentioned(d, {v})
    ensures 2 * v + 1 < |d.watches| && Kernel(t, Emptied(d, v), place, {}, 0)
  {
    hide TrailOk, ReasonsOk, WatchOk, Has, Distinct, ClauseOk;
    var e := Emptied(d, v);
    forall q, k | 0 <= q < |e.watches| && 0 <= k < |e.watches[q]| ensures EntryOk(e, q, e.watches[q][k]) {
      assert EntryOk(d, q, d.watches[q][k]);
    }
    forall cr, q | e.Live(cr) && 0 <= q < |e.watches| && Watched(e.ca[cr], q) ensures Has(e.watches[q], cr) {
      assert d.Live(cr) && Watched(d.ca[cr], q);
      assert d.ca[cr][0] in d.ca[cr] && d.ca[cr][1] in d.ca[cr];
    }
    forall q | 0 <= q < |e.watches| ensures Distinct(e.watches[q]) { NothingDistinct(); }
    ListsOnly(t, d, e, place, {}, 0);
  }

  lemma NothingDistinct()
    ensures Distinct([])
  {
  }

  /** The reason and the level of a variable without a value do not matter. */
  ghost function Fresh(t: Trail, v: nat): Trail
    requires v < |t.reason| && v < |t.level|
  {
    t.(reason := t.reason[v := -1], level := t.level[v := 0])
  }

  lemma FreshKernel(t: Trail, d: Db, place: nat, v: nat)
    requires Kernel(t, d, place, {}, 0) && v < t.Size() && t.assigns[v] == LUndef
    ensures v < |t.reason| && v < |t.level| && Kernel(Fresh(t, v), d, place, {}, 0)
  {
    hide DbOk, ListsOk;
    var u := Fresh(t, v);
    forall k | 0 <= k < |t.lits| ensures t.lits[k].v != v { assert t.Val(t.lits[k]) == LTrue; }
    forall k | 0 <= k < |u.lits| ensures LevelAt(u, k, u.level[u.lits[k].v]) { assert LevelAt(t, k, t.level[t.lits[k].v]); }
    forall k | 0 <= k < |u.lits| ensures ReasonAt(u, d, k) {
      assert ReasonAt(t, d, k) && LevelAt(t, k, t.level[t.lits[k].v]);
      var r := t.reason[t.lits[k].v];
      if r >= 0 {
        forall j | 1 <= j < |d.ca[r]| ensures FalseBefore(u, d.ca[r][j], k) { assert FalseBefore(t, d.ca[r][j], k); }
      }
    }
    forall c, lv: nat ensures TrueBy(t, c, lv) ==> TrueBy(u, c, lv) {
      if TrueBy(t, c, lv) {
        var l :| l in c && t.Val(l) == LTrue && l.v < |t.level| && t.level[l.v] <= lv;
        assert u.Val(l) == LTrue;
      }
    }
    forall l, at: nat ensures FalseBefore(u, l, at) <==> FalseBefore(t, l, at) {}
  }
}
