/** The worklist pass with the descendant maps as the code fills them.

    `PostDominancePass` moves a block to the lowest common ancestor.  The code looks that ancestor up in the
    descendant maps, so its runs are those of the machine below.  On every graph they keep the pointers a tree
    and end with the blocks attached from which the return block can be reached.  As long as no block precedes
    three such blocks, the two machines agree. */
module KeyedPass {
  import opened PostDominance
  import opened PostDominancePass
  import opened DescendantRows

  datatype Keyed = Keyed(at: Config, rows: Rows)

  ghost function KeyedStart(g: Graph): Keyed
    requires RETURN in g
  {
    Keyed(Start(g), map a | a in g :: map[])
  }

  /** The pointers form a tree of blocks that have rows. */
  ghost predicate Rooted(s: Keyed) {
    s.at.forest.Valid() && s.at.cur in s.at.forest.rank && s.at.forest.rank.Keys <= s.rows.Keys
  }

  /** The state after the edge from p to the current block has been visited. */
  ghost function KeyedVisited(s: Keyed, p: Addr): Keyed
    requires Rooted(s) && p in s.rows
  {
    Keyed(s.at.(forest := Relinked(s.at.forest, p, NewParent(s.at.forest, s.rows, s.at.cur, p)),
                todo := s.at.todo - {p},
                queue := if p in s.at.forest.parent then s.at.queue else s.at.queue + [p]),
          VisitedRows(s.at.forest, s.rows, s.at.cur, p))
  }

  ghost predicate KeyedVisit(s: Keyed, t: Keyed, p: Addr) {
    Rooted(s) && p in s.at.todo && p in s.rows && t == KeyedVisited(s, p)
  }

  ghost predicate KeyedPop(g: Graph, s: Keyed, t: Keyed) {
    PopStep(g, s.at, t.at) && t.rows == s.rows
  }

  ghost predicate KeyedNext(g: Graph, s: Keyed, t: Keyed) {
    KeyedPop(g, s, t) || exists p :: KeyedVisit(s, t, p)
  }

  ghost predicate IsKeyedRun(g: Graph, tr: seq<Keyed>)
    requires RETURN in g
  {
    && |tr| > 0 && tr[0] == KeyedStart(g)
    && forall i, j | 0 <= i < j < |tr| && j == i + 1 :: KeyedNext(g, tr[i], tr[j])
  }

  lemma ExtendRun(g: Graph, tr: seq<Keyed>, t: Keyed)
    requires WellFormed(g) && IsKeyedRun(g, tr) && KeyedNext(g, tr[|tr| - 1], t)
    ensures IsKeyedRun(g, tr + [t])
  {
    var tr' := tr + [t];
    forall i, j | 0 <= i < j < |tr'| && j == i + 1
      ensures KeyedNext(g, tr'[i], tr'[j])
    {
      if j < |tr| {
        assert KeyedNext(g, tr[i], tr[j]);
      }
    }
  }

  ghost function PassOf(tr: seq<Keyed>): seq<Config> {
    seq(|tr|, i requires 0 <= i < |tr| => tr[i].at)
  }

  // ---------------------------------------------------------------- how often a block is looked up

  /** The blocks that p precedes and from which the return block can be reached. */
  ghost function Succs(g: Graph, p: Addr): set<Addr> {
    set c | c in g && p in g[c] && Reach(g, c, RETURN, {})
  }

  ghost predicate AtMost(g: Graph, k: nat) {
    forall p :: |Succs(g, p)| <= k
  }

  /** The blocks from which the edge to p has been visited. */
  ghost function VisitedFrom(g: Graph, s: Config, p: Addr): set<Addr> {
    set c | c in s.done && c in g && p in g[c] && !(c == s.cur && p in s.todo)
  }

  /** The blocks visited more than once: these have been looked up. */
  ghost function Asked(g: Graph, s: Config): set<Addr> {
    set p | p in g && |VisitedFrom(g, s, p)| >= 2
  }

  ghost function Forks(g: Graph): set<Addr> {
    set p | p in g && |Succs(g, p)| >= 2
  }

  ghost predicate AttachedIffVisited(g: Graph, s: Config) {
    forall p | p in g :: p in s.forest.parent <==> VisitedFrom(g, s, p) != {}
  }

  /** The return block can be reached from all attached blocks. */
  ghost predicate Reached(g: Graph, f: Forest) {
    forall a | a in f.rank :: Reach(g, a, RETURN, {})
  }

  lemma VisitedAreSuccs(g: Graph, s: Config, p: Addr)
    requires Bookkeeping(g, s) && Reached(g, s.forest)
    ensures VisitedFrom(g, s, p) <= Succs(g, p)
  {
    forall c | c in VisitedFrom(g, s, p) ensures c in Succs(g, p) {
      assert c in s.forest.rank;
    }
  }

  lemma VisitMarks(g: Graph, s: Config, t: Config, p: Addr, d: Addr)
    requires s.cur in s.done && s.cur in g && s.todo <= g[s.cur] && p in s.todo
    requires t.done == s.done && t.cur == s.cur && t.todo == s.todo - {p}
    ensures VisitedFrom(g, t, d) == VisitedFrom(g, s, d) + if d == p then {s.cur} else {}
    ensures d == p ==> s.cur !in VisitedFrom(g, s, d)
  {
  }

  lemma PopMarks(g: Graph, s: Config, t: Config, d: Addr)
    requires Bookkeeping(g, s) && PopStep(g, s, t)
    ensures VisitedFrom(g, t, d) == VisitedFrom(g, s, d)
  {
    assert s.queue[0] in s.queue;
  }

  lemma PopMarksAll(g: Graph, s: Config, t: Config)
    requires Bookkeeping(g, s) && PopStep(g, s, t)
    ensures forall d :: VisitedFrom(g, t, d) == VisitedFrom(g, s, d)
  {
    hide VisitedFrom, Bookkeeping;
    forall d ensures VisitedFrom(g, t, d) == VisitedFrom(g, s, d) {
      PopMarks(g, s, t, d);
    }
  }

  // ---------------------------------------------------------------- on every graph

  /** What every state of every run keeps: the pointers form a tree, rows count only blocks farther away, and the
      attached blocks are those visited, queued or done, from all of which the return block can be reached. */
  ghost predicate Tidy(g: Graph, s: Keyed) {
    && Bookkeeping(g, s.at) && s.rows.Keys == g.Keys && ByRank(s.at.forest, s.rows)
    && Reached(g, s.at.forest) && AttachedIffVisited(g, s.at)
  }

  lemma StartTidy(g: Graph)
    requires WellFormed(g)
    ensures Tidy(g, KeyedStart(g))
  {
    StartInv(g);
    ReachSelf(g, RETURN, {});
    var s := KeyedStart(g);
    forall p | p in g ensures VisitedFrom(g, s.at, p) == {} {
    }
    NothingCounted(s.at.forest, s.rows);
  }

  lemma NothingCounted(f: Forest, T: Rows)
    requires forall a | a in T :: T[a] == map[]
    ensures ByRank(f, T)
  {
  }

  lemma TidyRooted(g: Graph, s: Keyed)
    requires Tidy(g, s)
    ensures Rooted(s) && s.at.forest.rank.Keys <= g.Keys == s.rows.Keys
    ensures WellFormed(g) ==> RETURN !in s.at.todo && s.at.todo <= g.Keys
  {
  }

  lemma VisitTidy(g: Graph, s: Keyed, p: Addr)
    requires WellFormed(g) && Tidy(g, s) && p in s.at.todo
    ensures Rooted(s) && p in s.rows && Tidy(g, KeyedVisited(s, p))
  {
    hide Bookkeeping, ByRank, Reached, AttachedIffVisited, NewParent, VisitedRows, Forest.Valid, Relinked, WellFormed;
    var f, c := s.at.forest, s.at.cur;
    TodoFacts(g, s.at, p);
    VisitedKeys(f, s.rows, c, p);
    VisitedByRank(f, s.rows, c, p);
    VisitedValid(f, s.rows, c, p);
    var f' := Relinked(f, p, NewParent(f, s.rows, c, p));
    RelinkKeepsBookkeeping(g, s.at, f', p);
    VisitReached(g, s.at, f', p);
    VisitAttaches(g, s.at, KeyedVisited(s, p).at, p);
  }

  lemma TodoFacts(g: Graph, s: Config, p: Addr)
    requires WellFormed(g) && Bookkeeping(g, s) && p in s.todo
    ensures s.forest.Valid() && s.cur in s.forest.rank && s.forest.rank.Keys <= g.Keys
    ensures p != RETURN && p in g && Edge(g, p, s.cur)
  {
  }

  lemma VisitReached(g: Graph, s: Config, f: Forest, p: Addr)
    requires WellFormed(g) && Bookkeeping(g, s) && Reached(g, s.forest) && p in s.todo
    requires f.rank.Keys == s.forest.rank.Keys + {p}
    ensures Reached(g, f)
  {
    TodoFacts(g, s, p);
    ReachPrepend(g, p, s.cur, RETURN, {});
  }

  lemma VisitAttaches(g: Graph, s: Config, t: Config, p: Addr)
    requires WellFormed(g) && Bookkeeping(g, s) && AttachedIffVisited(g, s) && p in s.todo
    requires t.done == s.done && t.cur == s.cur && t.todo == s.todo - {p}
    requires t.forest.Valid() && t.forest.rank.Keys == s.forest.rank.Keys + {p}
    ensures AttachedIffVisited(g, t)
  {
    TodoFacts(g, s, p);
    forall d | d in g ensures d in t.forest.parent <==> VisitedFrom(g, t, d) != {} {
      VisitMarks(g, s, t, p, d);
    }
  }

  lemma PopTidy(g: Graph, s: Keyed, t: Keyed)
    requires WellFormed(g) && Tidy(g, s) && KeyedPop(g, s, t)
    ensures Tidy(g, t) && Asked(g, t.at) == Asked(g, s.at)
  {
    hide VisitedFrom, Bookkeeping, Reached, ByRank, WellFormed;
    PopKeepsBookkeeping(g, s.at);
    PopMarksAll(g, s.at, t.at);
  }

  /** Every state of every run on every graph is tidy. */
  lemma {:induction false} KeyedTidy(g: Graph, tr: seq<Keyed>, i: nat)
    requires WellFormed(g) && IsKeyedRun(g, tr) && i < |tr|
    ensures Tidy(g, tr[i])
  {
    hide Tidy, WellFormed;
    if i == 0 {
      StartTidy(g);
    } else {
      KeyedTidy(g, tr, i - 1);
      assert KeyedNext(g, tr[i - 1], tr[i]);
      if KeyedPop(g, tr[i - 1], tr[i]) {
        PopTidy(g, tr[i - 1], tr[i]);
      } else {
        var p :| KeyedVisit(tr[i - 1], tr[i], p);
        VisitTidy(g, tr[i - 1], p);
      }
    }
  }

  /** From every state that has not finished the pass can go on. */
  lemma GoesOn(g: Graph, tr: seq<Keyed>) returns (t: Keyed)
    requires WellFormed(g) && IsKeyedRun(g, tr) && !Finished(tr[|tr| - 1].at)
    ensures IsKeyedRun(g, tr + [t])
  {
    var s := tr[|tr| - 1];
    KeyedTidy(g, tr, |tr| - 1);
    if s.at.todo != {} {
      var p :| p in s.at.todo;
      VisitTidy(g, s, p);
      t := KeyedVisited(s, p);
      assert KeyedVisit(s, t, p);
    } else {
      PopKeepsBookkeeping(g, s.at);
      t := Keyed(Pop(g, s.at), s.rows);
      assert KeyedPop(g, s, t);
    }
    ExtendRun(g, tr, t);
  }

  /** Each step either takes a block from the queue that was never taken before, or visits one more
      predecessor of the current block; so no run is longer than blocks plus edges. */
  lemma StepsDecrease(g: Graph, tr: seq<Keyed>, i: nat)
    requires WellFormed(g) && IsKeyedRun(g, tr) && i + 1 < |tr|
    ensures var s, t := tr[i].at, tr[i + 1].at;
            || (s.done < t.done <= g.Keys)
            || (s.done == t.done && t.todo < s.todo)
  {
    KeyedTidy(g, tr, i);
    KeyedTidy(g, tr, i + 1);
    var s, t := tr[i], tr[i + 1];
    assert KeyedNext(g, s, t);
    if KeyedPop(g, s, t) {
      PopGrows(g, s.at);
    } else {
      var p :| KeyedVisit(s, t, p);
    }
  }

  lemma PopGrows(g: Graph, s: Config)
    requires WellFormed(g) && Bookkeeping(g, s) && s.todo == {} && s.queue != []
    ensures s.queue[0] in g && s.queue[0] in s.forest.rank && RETURN !in g[s.queue[0]]
    ensures g[s.queue[0]] <= g.Keys
    ensures s.done < Pop(g, s).done <= g.Keys
  {
    assert s.queue[0] in s.queue;
    forall a | a in s.done ensures a in g {
      assert a in s.forest.rank;
    }
  }

  ghost predicate QueuedAt(tr: seq<Keyed>, i: nat, p: Addr) {
    i + 1 < |tr| && tr[i + 1].at.queue == tr[i].at.queue + [p]
  }

  lemma StepAttaches(g: Graph, tr: seq<Keyed>, i: nat)
    requires WellFormed(g) && IsKeyedRun(g, tr) && i + 1 < |tr|
    ensures tr[i].at.forest.rank.Keys <= tr[i + 1].at.forest.rank.Keys
    ensures forall p | QueuedAt(tr, i, p) :: p !in tr[i].at.forest.rank && p in tr[i + 1].at.forest.rank
  {
    KeyedTidy(g, tr, i);
    var s, t := tr[i], tr[i + 1];
    assert KeyedNext(g, s, t);
    if KeyedPop(g, s, t) {
      assert |t.at.queue| < |s.at.queue|;
    } else {
      var p :| KeyedVisit(s, t, p);
      VisitQueues(g, s, p);
    }
  }

  lemma VisitQueues(g: Graph, s: Keyed, p: Addr)
    requires WellFormed(g) && Tidy(g, s) && p in s.at.todo
    ensures Rooted(s) && p in s.rows
    ensures var t := KeyedVisited(s, p).at;
            && t.forest.rank.Keys == s.at.forest.rank.Keys + {p}
            && forall q | t.queue == s.at.queue + [q] :: q == p && p !in s.at.forest.rank
  {
    TodoFacts(g, s.at, p);
    VisitedValid(s.at.forest, s.rows, s.at.cur, p);
    hide Bookkeeping, NewParent, VisitedRows;
    var t := KeyedVisited(s, p).at;
    forall q | t.queue == s.at.queue + [q] ensures q == p && p !in s.at.forest.rank {
      assert |t.queue| == |s.at.queue| + 1 && t.queue[|s.at.queue|] == q;
    }
  }

  lemma {:induction false} AttachedForever(g: Graph, tr: seq<Keyed>, i: nat, j: nat)
    requires WellFormed(g) && IsKeyedRun(g, tr) && i <= j < |tr|
    ensures tr[i].at.forest.rank.Keys <= tr[j].at.forest.rank.Keys
    decreases j
  {
    if i < j {
      AttachedForever(g, tr, i, j - 1);
      StepAttaches(g, tr, j - 1);
    }
  }

  /** No block enters the queue twice. */
  lemma QueuedAtMostOnce(g: Graph, tr: seq<Keyed>, i: nat, j: nat, p: Addr)
    requires WellFormed(g) && IsKeyedRun(g, tr) && QueuedAt(tr, i, p) && QueuedAt(tr, j, p)
    ensures i == j
  {
    StepAttaches(g, tr, i);
    StepAttaches(g, tr, j);
    if i < j {
      AttachedForever(g, tr, i + 1, j);
    } else if j < i {
      AttachedForever(g, tr, j + 1, i);
    }
  }

  /** When the pass ends, a block other than the return block has a parent exactly when control can
      get from it to the return block. */
  lemma AttachedIffReachesReturn(g: Graph, tr: seq<Keyed>, a: Addr)
    requires WellFormed(g) && IsKeyedRun(g, tr) && Finished(tr[|tr| - 1].at)
    requires a != RETURN
    ensures a in tr[|tr| - 1].at.forest.parent <==> Reach(g, a, RETURN, {})
  {
    var s := tr[|tr| - 1];
    KeyedTidy(g, tr, |tr| - 1);
    if Reach(g, a, RETURN, {}) {
      var path :| IsPath(g, path, a, RETURN) && forall v | v in path :: v !in {};
      FinishedIsClosed(g, s.at);
      PathAttached(g, s.at.forest, path, a);
    }
  }

  /** When the pass has ended, those visited more than once are the blocks with two successors from which the
      return block can be reached. */
  lemma AskedAtEnd(g: Graph, tr: seq<Keyed>)
    requires WellFormed(g) && IsKeyedRun(g, tr) && Finished(tr[|tr| - 1].at)
    ensures Asked(g, tr[|tr| - 1].at) == Forks(g)
  {
    var s := tr[|tr| - 1].at;
    KeyedTidy(g, tr, |tr| - 1);
    hide Reached, ByRank, AttachedIffVisited, Bookkeeping, VisitedFrom, Succs;
    forall p | p in g ensures VisitedFrom(g, s, p) == Succs(g, p) {
      AllVisited(g, s, p);
    }
  }

  lemma AllVisited(g: Graph, s: Config, p: Addr)
    requires WellFormed(g) && Bookkeeping(g, s) && Reached(g, s.forest) && Finished(s)
    ensures VisitedFrom(g, s, p) == Succs(g, p)
  {
    VisitedAreSuccs(g, s, p);
    forall c | c in Succs(g, p) ensures c in VisitedFrom(g, s, p) {
      SuccessorVisited(g, s, p, c);
    }
  }

  lemma SuccessorVisited(g: Graph, s: Config, a: Addr, c: Addr)
    requires WellFormed(g) && Bookkeeping(g, s) && Finished(s) && c in Succs(g, a)
    ensures c in VisitedFrom(g, s, a)
  {
    var path :| IsPath(g, path, c, RETURN) && forall v | v in path :: v !in {};
    FinishedIsClosed(g, s);
    PathAttached(g, s.forest, path, c);
  }

  // ---------------------------------------------------------------- the code follows the tree

  /** The first visit attaches a block, the second looks it up for the first time, and there is no third. */
  lemma VisitAsks(g: Graph, s: Config, t: Config, p: Addr)
    requires WellFormed(g) && AtMost(g, 2) && Bookkeeping(g, s) && Reached(g, s.forest) && AttachedIffVisited(g, s)
    requires p in s.todo && t.done == s.done && t.cur == s.cur && t.todo == s.todo - {p}
    ensures p in s.forest.parent ==> p !in Asked(g, s) && Asked(g, s) + {p} <= Asked(g, t)
    ensures Asked(g, s) <= Asked(g, t)
  {
    hide VisitedFrom, Succs, Bookkeeping, Reached, WellFormed, Asked, AtMost;
    VisitsCounted(g, s, t, p);
    FewSuccs(g, p);
    AskedIff(g, s, p);
    AskedIff(g, t, p);
    forall d | d in Asked(g, s) ensures d in Asked(g, t) {
      AskedIff(g, s, d);
      AskedIff(g, t, d);
      VisitedGrows(g, s, t, p, d);
    }
  }

  lemma FewSuccs(g: Graph, p: Addr)
    requires AtMost(g, 2)
    ensures |Succs(g, p)| <= 2
  {
  }

  lemma AskedIff(g: Graph, s: Config, p: Addr)
    ensures p in Asked(g, s) <==> p in g && |VisitedFrom(g, s, p)| >= 2
  {
  }

  lemma VisitedGrows(g: Graph, s: Config, t: Config, p: Addr, d: Addr)
    requires Bookkeeping(g, s) && p in s.todo && t.done == s.done && t.cur == s.cur && t.todo == s.todo - {p}
    ensures |VisitedFrom(g, s, d)| <= |VisitedFrom(g, t, d)|
  {
    VisitMarks(g, s, t, p, d);
    SubsetSize(VisitedFrom(g, s, d), VisitedFrom(g, t, d));
  }

  lemma VisitsCounted(g: Graph, s: Config, t: Config, p: Addr)
    requires Bookkeeping(g, s) && Reached(g, s.forest)
    requires p in s.todo && t.done == s.done && t.cur == s.cur && t.todo == s.todo - {p}
    requires WellFormed(g)
    ensures p in g && |VisitedFrom(g, t, p)| == |VisitedFrom(g, s, p)| + 1 <= |Succs(g, p)|
    ensures VisitedFrom(g, s, p) != {} ==> |VisitedFrom(g, s, p)| >= 1
  {
    VisitMarks(g, s, t, p, p);
    VisitedAreSuccs(g, s, p);
    assert s.cur in s.forest.rank && s.cur in Succs(g, p);
    SubsetSize(VisitedFrom(g, t, p), Succs(g, p));
  }

  lemma {:induction false} SubsetSize(s: set<Addr>, t: set<Addr>)
    requires s <= t
    ensures |s| <= |t|
  {
    if s != {} {
      var a :| a in s;
      SubsetSize(s - {a}, t - {a});
    }
  }

  /** A state in which every lookup so far has found the lowest common ancestor. */
  ghost predicate Follows(g: Graph, s: Keyed) {
    && Tidy(g, s) && Climbable(g, s.at.forest) && Sound(g, s.at.forest)
    && Tracks(s.at.forest, Asked(g, s.at), s.rows)
  }

  lemma StartFollows(g: Graph)
    requires WellFormed(g)
    ensures Follows(g, KeyedStart(g))
  {
    StartTidy(g);
    StartInv(g);
  }

  /** From such a state a visit finds the lowest common ancestor. */
  lemma VisitFollows(g: Graph, s: Keyed, p: Addr)
    requires WellFormed(g) && AtMost(g, 2) && Follows(g, s) && p in s.at.todo
    ensures Rooted(s) && p in s.rows && KeyedVisited(s, p).at == Visit(s.at, p)
    ensures Follows(g, KeyedVisited(s, p))
  {
    hide Climbable, Sound, Reached, AttachedIffVisited, Bookkeeping, ByRank, AtMost, WellFormed, Asked, Forest.Common,
      Forest.Valid, VisitedRows;
    TodoFacts(g, s.at, p);
    var f, c := s.at.forest, s.at.cur;
    VisitTidy(g, s, p);
    VisitKeepsInv(g, s.at, p);
    VisitAsks(g, s.at, KeyedVisited(s, p).at, p);
    VisitTracks(f, Asked(g, s.at), s.rows, c, p);
    TracksMore(f.AddPred(c, p), Asked(g, s.at) + if p in f.parent then {p} else {},
               Asked(g, KeyedVisited(s, p).at), VisitedRows(f, s.rows, c, p));
  }

  lemma VisitTracks(f: Forest, asked: set<Addr>, T: Rows, c: Addr, p: Addr)
    requires Tracks(f, asked, T) && c in f.rank && p in T && p != RETURN && f.rank.Keys <= T.Keys
    requires p in f.parent ==> p !in asked
    ensures Relinked(f, p, NewParent(f, T, c, p)) == f.AddPred(c, p)
    ensures Tracks(f.AddPred(c, p), asked + if p in f.parent then {p} else {}, VisitedRows(f, T, c, p))
  {
    hide VisitedRows, CountsBelow, NullsIn, Forest.Common, NewParent;
    if p in f.parent {
      MoveTracks(f, asked, T, c, p);
    } else {
      AttachTracks(f, asked, T, c, p);
      AttachesToCurrent(f, T, c, p);
      assert asked + {} == asked;
    }
  }

  lemma AttachesToCurrent(f: Forest, T: Rows, c: Addr, p: Addr)
    requires f.Valid() && c in f.rank && p !in f.parent
    ensures NewParent(f, T, c, p) == c
  {
  }

  lemma StepFollows(g: Graph, s: Keyed, t: Keyed)
    requires WellFormed(g) && AtMost(g, 2) && Follows(g, s) && KeyedNext(g, s, t)
    ensures Next(g, s.at, t.at) && Follows(g, t)
  {
    hide AtMost, WellFormed, Tidy, Climbable, Sound, Tracks, Visit, KeyedVisited;
    if KeyedPop(g, s, t) {
      PopTidy(g, s, t);
    } else {
      var p :| KeyedVisit(s, t, p);
      VisitFollows(g, s, p);
      assert VisitStep(s.at, t.at, p);
    }
  }

  /** If no block precedes three blocks from which the return block can be reached, in every state of every run
      the rows follow the tree, a tree ancestor is reached by a path that avoids all higher ancestors, and a block
      that is no ancestor can be avoided on the way to the return block. */
  lemma {:induction false} KeyedFollows(g: Graph, tr: seq<Keyed>, i: nat)
    requires WellFormed(g) && AtMost(g, 2) && IsKeyedRun(g, tr) && i < |tr|
    ensures Follows(g, tr[i])
  {
    if i == 0 {
      StartFollows(g);
    } else {
      KeyedFollows(g, tr, i - 1);
      StepFollows(g, tr[i - 1], tr[i]);
    }
  }

  /** If no block precedes three blocks from which the return block can be reached, every run of the code is a
      run in which each lookup finds the lowest common ancestor. */
  lemma KeyedIsRun(g: Graph, tr: seq<Keyed>)
    requires WellFormed(g) && AtMost(g, 2) && IsKeyedRun(g, tr)
    ensures IsRun(g, PassOf(tr))
  {
    var run := PassOf(tr);
    forall i, j | 0 <= i < j < |run| && j == i + 1
      ensures Next(g, run[i], run[j])
    {
      KeyedFollows(g, tr, i);
      StepFollows(g, tr[i], tr[j]);
    }
  }

  /** In every state of every run the rows of all blocks count exactly the strict tree descendants among the
      blocks visited at most once. */
  lemma RowsFollowTree(g: Graph, tr: seq<Keyed>, i: nat, a: Addr, d: Addr)
    requires WellFormed(g) && AtMost(g, 2) && IsKeyedRun(g, tr) && i < |tr|
    requires a in g && d !in Asked(g, tr[i].at)
    ensures var s := tr[i];
            a in s.rows && s.at.forest.Valid() && (Counts(s.rows[a], d) <==> s.at.forest.Above(a, d))
  {
    KeyedFollows(g, tr, i);
  }

  /** In every state of every run of the code, each true strict post-dominator of an attached block is a tree
      ancestor of it, if no block precedes three blocks from which the return block can be reached. */
  lemma KeyedAncestors(g: Graph, tr: seq<Keyed>, i: nat, a: Addr, d: Addr)
    requires WellFormed(g) && AtMost(g, 2) && IsKeyedRun(g, tr) && i < |tr|
    requires a in tr[i].at.forest.rank && d != a && PostDominates(g, d, a)
    ensures tr[i].at.forest.Valid() && tr[i].at.forest.Above(d, a)
  {
    KeyedFollows(g, tr, i);
    SoundAncestors(g, tr[i].at.forest, a, d);
  }
}
