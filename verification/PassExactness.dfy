/** Graphs on which every run of the pass is exact.

    The queue makes the pass visit blocks in the order of their distance from the return block.  When a block
    is taken from the queue, the blocks next to it on its shortest paths have been taken before, so its tree
    ancestors lie on all its shortest paths; and they end up on the shortest paths of its successors.  Where
    that decides which of them post-dominate the block, the pass is exact. */
module PassExactness {
  import opened PostDominance
  import opened PostDominancePass
  import opened KeyedPass

  ghost predicate Shortest(g: Graph, s: seq<Addr>, a: Addr) {
    IsPath(g, s, a, RETURN) && forall t | IsPath(g, t, a, RETURN) :: |s| <= |t|
  }

  /** d lies on every shortest path from a to the return block. */
  ghost predicate OnShortest(g: Graph, d: Addr, a: Addr) {
    forall s | Shortest(g, s, a) :: d in s
  }

  /** d lies on all shortest paths of all blocks that follow y. */
  ghost predicate Shared(g: Graph, d: Addr, y: Addr) {
    forall c | c in Succs(g, y) :: OnShortest(g, d, c)
  }

  /** A block on all shortest paths of all blocks that follow y post-dominates y, if it is itself post-dominated
      by all strict post-dominators of y. */
  ghost predicate Decided(g: Graph) {
    forall y, d | y != RETURN && d != y && Shared(g, d, y) && Within(g, d, y) :: PostDominates(g, d, y)
  }

  /** All strict post-dominators of y post-dominate d. */
  ghost predicate Within(g: Graph, d: Addr, y: Addr) {
    forall z | z != y && PostDominates(g, z, y) :: PostDominates(g, z, d)
  }

  // ---------------------------------------------------------------- paths

  lemma ShortestTail(g: Graph, s: seq<Addr>, a: Addr)
    requires Shortest(g, s, a) && a != RETURN
    ensures |s| > 1 && Edge(g, a, s[1]) && Shortest(g, s[1..], s[1])
  {
    var c := s[1];
    forall t | IsPath(g, t, c, RETURN) ensures |s[1..]| <= |t| {
      assert ([a] + t)[1..] == t;
      assert IsPath(g, [a] + t, a, RETURN);
    }
  }

  lemma {:induction false} SuffixFrom(g: Graph, s: seq<Addr>, b: Addr, a: Addr) returns (t: seq<Addr>)
    requires IsPath(g, s, b, RETURN) && a in s
    ensures IsPath(g, t, a, RETURN) && |t| <= |s| && forall v | v in t :: v in s
    decreases |s|
  {
    if a == b {
      t := s;
    } else {
      t := SuffixFrom(g, s[1..], s[1], a);
    }
  }

  lemma DominanceTransitive(g: Graph, d: Addr, z: Addr, a: Addr)
    requires PostDominates(g, d, z) && PostDominates(g, z, a)
    ensures PostDominates(g, d, a)
  {
    forall s | IsPath(g, s, a, RETURN) ensures d in s {
      var t := SuffixFrom(g, s, a, z);
    }
  }

  lemma PathReaches(g: Graph, s: seq<Addr>, a: Addr)
    requires IsPath(g, s, a, RETURN)
    ensures Reach(g, a, RETURN, {})
  {
    assert forall v | v in s :: v !in {};
  }

  // ---------------------------------------------------------------- the order of the visits

  ghost predicate Sorted(f: Forest, q: seq<Addr>)
    requires forall a | a in q :: a in f.rank
  {
    forall i, j | 0 <= i < j < |q| :: f.rank[q[i]] <= f.rank[q[j]]
  }

  /** Some path of n edges leads from a to the return block. */
  ghost predicate HasPath(g: Graph, a: Addr, n: nat) {
    exists s :: IsPath(g, s, a, RETURN) && |s| == n + 1
  }

  lemma PathBefore(g: Graph, p: Addr, c: Addr, n: nat)
    requires Edge(g, p, c) && HasPath(g, c, n)
    ensures HasPath(g, p, n + 1)
  {
    var t :| IsPath(g, t, c, RETURN) && |t| == n + 1;
    assert ([p] + t)[1..] == t;
    assert IsPath(g, [p] + t, p, RETURN);
  }

  /** Ranks are lengths of paths. */
  ghost predicate RanksAreLengths(g: Graph, f: Forest) {
    forall a | a in f.rank :: HasPath(g, a, f.rank[a])
  }

  /** The queue holds blocks as far away as the current one, followed by blocks one step farther. */
  ghost predicate InOrder(g: Graph, s: Config)
    requires Bookkeeping(g, s)
  {
    && (forall a | a in s.queue :: s.forest.rank[s.cur] <= s.forest.rank[a] <= s.forest.rank[s.cur] + 1)
    && Sorted(s.forest, s.queue)
    && (forall a | a in s.done :: s.forest.rank[a] <= s.forest.rank[s.cur])
  }

  /** A visited edge leads at most one step nearer to the return block. */
  ghost predicate OneStep(g: Graph, s: Config)
    requires Bookkeeping(g, s)
  {
    forall p, c | c in VisitedFrom(g, s, p) :: s.forest.rank[p] <= s.forest.rank[c] + 1
  }

  ghost predicate ByDistance(g: Graph, s: Config) {
    Inv(g, s) && RanksAreLengths(g, s.forest) && InOrder(g, s) && OneStep(g, s)
  }

  lemma StartByDistance(g: Graph)
    requires WellFormed(g)
    ensures ByDistance(g, Start(g))
  {
    StartInv(g);
    assert IsPath(g, [RETURN], RETURN, RETURN);
  }

  lemma VisitRanks(g: Graph, s: Config, p: Addr)
    requires WellFormed(g) && Inv(g, s) && p in s.todo
    ensures var f, f' := s.forest, Visit(s, p).forest;
            && p in f'.rank && f'.rank.Keys == f.rank.Keys + {p}
            && (forall a | a in f.rank :: f'.rank[a] == f.rank[a])
            && (p !in f.rank ==> f'.rank[p] == f.rank[s.cur] + 1)
            && Visit(s, p).queue == (if p in f.rank then s.queue else s.queue + [p])
  {
  }

  lemma VisitLengths(g: Graph, s: Config, p: Addr)
    requires WellFormed(g) && Inv(g, s) && RanksAreLengths(g, s.forest) && p in s.todo
    ensures RanksAreLengths(g, Visit(s, p).forest)
  {
    hide Climbable, Sound, HasPath, Forest.AddPred;
    VisitRanks(g, s, p);
    PathBefore(g, p, s.cur, s.forest.rank[s.cur]);
  }

  lemma VisitInOrder(g: Graph, s: Config, p: Addr)
    requires WellFormed(g) && Bookkeeping(g, s) && InOrder(g, s) && p in s.todo && Inv(g, s)
    ensures Bookkeeping(g, Visit(s, p)) && InOrder(g, Visit(s, p))
  {
    hide Climbable, Sound, Reach, Forest.AddPred, Forest.Valid;
    VisitKeepsBookkeeping(g, s, p);
    VisitRanks(g, s, p);
  }

  lemma VisitOneStep(g: Graph, s: Config, p: Addr)
    requires WellFormed(g) && Bookkeeping(g, s) && InOrder(g, s) && OneStep(g, s) && p in s.todo && Inv(g, s)
    ensures Bookkeeping(g, Visit(s, p)) && OneStep(g, Visit(s, p))
  {
    hide Climbable, Sound, Reach, Forest.AddPred, Forest.Valid, Sorted, Distinct, VisitedFrom;
    var t := Visit(s, p);
    VisitKeepsBookkeeping(g, s, p);
    VisitRanks(g, s, p);
    forall q, c | c in VisitedFrom(g, t, q)
      ensures q in t.forest.rank && c in t.forest.rank && t.forest.rank[q] <= t.forest.rank[c] + 1
    {
      VisitMarks(g, s, t, p, q);
      if c in VisitedFrom(g, s, q) {
        VisitedAttached(g, s, q, c);
      }
    }
  }

  lemma VisitedAttached(g: Graph, s: Config, q: Addr, c: Addr)
    requires Bookkeeping(g, s) && c in VisitedFrom(g, s, q)
    ensures q in s.forest.rank && c in s.forest.rank
  {
  }

  lemma VisitByDistance(g: Graph, s: Config, p: Addr)
    requires WellFormed(g) && ByDistance(g, s) && p in s.todo
    ensures ByDistance(g, Visit(s, p))
  {
    hide Climbable, Sound, Reach, Forest.AddPred, Bookkeeping, InOrder, OneStep, RanksAreLengths;
    VisitKeepsInv(g, s, p);
    VisitLengths(g, s, p);
    VisitInOrder(g, s, p);
    VisitOneStep(g, s, p);
  }

  lemma PopInOrder(g: Graph, s: Config)
    requires WellFormed(g) && Bookkeeping(g, s) && InOrder(g, s) && s.todo == {} && s.queue != []
    ensures s.queue[0] in g && Bookkeeping(g, Pop(g, s)) && InOrder(g, Pop(g, s))
  {
    hide WellFormed, Forest.Valid, Distinct;
    PopKeepsBookkeeping(g, s);
    assert s.queue[0] in s.queue;
    SortedTail(s.forest, s.queue);
  }

  lemma SortedTail(f: Forest, q: seq<Addr>)
    requires q != [] && (forall a | a in q :: a in f.rank) && Sorted(f, q)
    ensures Sorted(f, q[1..])
    ensures forall a | a in q :: f.rank[q[0]] <= f.rank[a]
  {
  }

  lemma PopOneStep(g: Graph, s: Config)
    requires WellFormed(g) && Bookkeeping(g, s) && OneStep(g, s) && s.todo == {} && s.queue != []
    ensures s.queue[0] in g && Bookkeeping(g, Pop(g, s)) && OneStep(g, Pop(g, s))
  {
    hide VisitedFrom, Distinct, Forest.Valid, OneStep;
    PopKeepsBookkeeping(g, s);
    PopMarksAll(g, s, Pop(g, s));
    OneStepSame(g, s, Pop(g, s));
  }

  lemma OneStepSame(g: Graph, s: Config, t: Config)
    requires Bookkeeping(g, s) && Bookkeeping(g, t) && OneStep(g, s) && s.forest == t.forest
    requires forall q :: VisitedFrom(g, t, q) == VisitedFrom(g, s, q)
    ensures OneStep(g, t)
  {
    hide Bookkeeping, VisitedFrom;
    forall p, c | c in VisitedFrom(g, t, p)
      ensures c in s.forest.rank && p in s.forest.rank && s.forest.rank[p] <= s.forest.rank[c] + 1
    {
      VisitedAttached(g, s, p, c);
    }
  }

  lemma PopByDistance(g: Graph, s: Config)
    requires WellFormed(g) && ByDistance(g, s) && s.todo == {} && s.queue != []
    ensures s.queue[0] in g && ByDistance(g, Pop(g, s))
  {
    hide Climbable, Sound, Reach, Bookkeeping, InOrder, OneStep, RanksAreLengths;
    PopInOrder(g, s);
    PopOneStep(g, s);
  }

  /** When a block is about to be taken from the queue, all blocks nearer to the return block have been. */
  lemma {:induction false} NearerDone(g: Graph, s: Config, path: seq<Addr>, c: Addr)
    requires WellFormed(g) && ByDistance(g, s) && s.todo == {} && s.queue != []
    requires IsPath(g, path, c, RETURN)
    requires s.queue[0] in s.forest.rank && |path| <= s.forest.rank[s.queue[0]]
    ensures c in s.done && c in s.forest.rank && s.forest.rank[c] < |path|
    decreases |path|
  {
    hide Inv, RanksAreLengths, Sorted, InOrder, OneStep;
    if |path| == 1 {
      ReturnDone(g, s);
    } else {
      NearerDone(g, s, path[1..], path[1]);
      TodoDone(g, s, c, path[1]);
      StepDone(g, s, c, path[1]);
    }
  }

  lemma StepDone(g: Graph, s: Config, p: Addr, c: Addr)
    requires ByDistance(g, s) && s.queue != [] && c in VisitedFrom(g, s, p) && c in s.forest.rank
    requires s.queue[0] in s.forest.rank && s.forest.rank[c] + 1 < s.forest.rank[s.queue[0]]
    ensures p in s.done && p in s.forest.rank && s.forest.rank[p] <= s.forest.rank[c] + 1
  {
    hide Climbable, Sound, RanksAreLengths, Forest.Valid, Distinct;
    VisitedAttached(g, s, p, c);
    assert p !in s.queue;
  }

  lemma ReturnDone(g: Graph, s: Config)
    requires WellFormed(g) && ByDistance(g, s) && s.queue != []
    requires s.queue[0] in s.forest.rank && s.forest.rank[s.queue[0]] > 0
    ensures RETURN in s.done && RETURN in s.forest.rank && s.forest.rank[RETURN] == 0
  {
    hide Climbable, Sound, Distinct;
    var t :| IsPath(g, t, RETURN, RETURN) && |t| == s.forest.rank[RETURN] + 1;
    assert |t| == 1;
    assert RETURN !in s.queue;
  }

  // ---------------------------------------------------------------- ancestors and shortest paths

  /** The ancestors of a block taken from the queue lie on all its shortest paths. */
  ghost predicate DoneShort(g: Graph, s: Config)
    requires Bookkeeping(g, s)
  {
    forall a, d | a in s.done && d in s.forest.Up(a) :: OnShortest(g, d, a)
  }

  /** The strict ancestors of a block lie on all shortest paths of the blocks it was visited from. */
  ghost predicate VisitedShort(g: Graph, s: Config)
    requires Bookkeeping(g, s)
  {
    forall p, c, d | c in VisitedFrom(g, s, p) && s.forest.Above(d, p) :: OnShortest(g, d, c)
  }

  ghost predicate OnShortestPaths(g: Graph, s: Config) {
    ByDistance(g, s) && DoneShort(g, s) && VisitedShort(g, s)
  }

  /** A visit gives no attached block a new ancestor. */
  lemma VisitShrinks(g: Graph, s: Config, p: Addr, a: Addr)
    requires WellFormed(g) && Bookkeeping(g, s) && p in s.todo && a in s.forest.rank
    ensures Visit(s, p).forest.Valid() && a in Visit(s, p).forest.rank
    ensures Visit(s, p).forest.Up(a) <= s.forest.Up(a)
    ensures forall d | Visit(s, p).forest.Above(d, a) :: s.forest.Above(d, a)
  {
    var f := s.forest;
    if p in f.parent {
      f.CommonIsLowest(s.cur, p);
      f.MoveUp(p, f.Common(s.cur, p), a);
      f.MoveUp(p, f.Common(s.cur, p), p);
    } else {
      f.AttachUp(p, s.cur, a);
    }
    f.UpStep(a);
    Visit(s, p).forest.UpStep(a);
  }

  /** The ancestors that p gets are ancestors of the current block. */
  lemma VisitedBelow(g: Graph, s: Config, p: Addr, d: Addr)
    requires WellFormed(g) && Bookkeeping(g, s) && p in s.todo
    ensures Visit(s, p).forest.Valid()
    ensures Visit(s, p).forest.Above(d, p) ==> d in s.forest.Up(s.cur)
  {
    var f, c := s.forest, s.cur;
    if p in f.parent {
      f.CommonIsLowest(c, p);
      var n := f.Common(c, p);
      f.MoveUp(p, n, n);
      f.UpTransitive(c, n);
    } else {
      f.AttachUp(p, c, c);
    }
  }

  lemma VisitDoneShort(g: Graph, s: Config, p: Addr)
    requires WellFormed(g) && Bookkeeping(g, s) && DoneShort(g, s) && p in s.todo
    ensures Bookkeeping(g, Visit(s, p)) && DoneShort(g, Visit(s, p))
  {
    hide OnShortest, Forest.AddPred, Forest.Up;
    VisitKeepsBookkeeping(g, s, p);
    var t := Visit(s, p);
    forall a, d | a in t.done && d in t.forest.Up(a) ensures OnShortest(g, d, a) {
      VisitShrinks(g, s, p, a);
    }
  }

  lemma VisitVisitedShort(g: Graph, s: Config, p: Addr)
    requires WellFormed(g) && Bookkeeping(g, s) && DoneShort(g, s) && VisitedShort(g, s) && p in s.todo
    ensures Bookkeeping(g, Visit(s, p)) && VisitedShort(g, Visit(s, p))
  {
    hide OnShortest, Forest.AddPred, Forest.Up, VisitedFrom, Forest.Above;
    VisitKeepsBookkeeping(g, s, p);
    var t := Visit(s, p);
    forall q, c, d | c in VisitedFrom(g, t, q) && t.forest.Above(d, q) ensures OnShortest(g, d, c) {
      VisitMarks(g, s, t, p, q);
      if c in VisitedFrom(g, s, q) {
        VisitedAttached(g, s, q, c);
        VisitShrinks(g, s, p, q);
      } else {
        VisitedBelow(g, s, p, d);
      }
    }
  }

  lemma VisitOnShortestPaths(g: Graph, s: Config, p: Addr)
    requires WellFormed(g) && OnShortestPaths(g, s) && p in s.todo
    ensures OnShortestPaths(g, Visit(s, p))
  {
    hide Bookkeeping, Climbable, Sound, RanksAreLengths, InOrder, OneStep, DoneShort, VisitedShort;
    VisitByDistance(g, s, p);
    VisitDoneShort(g, s, p);
    VisitVisitedShort(g, s, p);
  }

  /** The block behind the next one on a shortest path has been taken, and the next one visited from it. */
  lemma NextVisited(g: Graph, s: Config, path: seq<Addr>)
    requires WellFormed(g) && ByDistance(g, s) && s.todo == {} && s.queue != []
    requires Shortest(g, path, s.queue[0]) && s.queue[0] != RETURN
    ensures |path| > 1 && Shortest(g, path[1..], path[1]) && path[1] in VisitedFrom(g, s, s.queue[0])
  {
    hide Inv, InOrder, OneStep, Bookkeeping;
    var p := s.queue[0];
    ShortestTail(g, path, p);
    NextFacts(g, s);
    var t :| IsPath(g, t, p, RETURN) && |t| == s.forest.rank[p] + 1;
    NearerDone(g, s, path[1..], path[1]);
    TodoDone(g, s, p, path[1]);
  }

  lemma TodoDone(g: Graph, s: Config, p: Addr, c: Addr)
    requires s.todo == {} && c in s.done && Edge(g, p, c)
    ensures c in VisitedFrom(g, s, p)
  {
  }

  /** The strict ancestors of the next block lie on all its shortest paths. */
  lemma NextShort(g: Graph, s: Config, d: Addr)
    requires WellFormed(g) && OnShortestPaths(g, s) && s.todo == {} && s.queue != []
    requires s.forest.Valid() && s.forest.Above(d, s.queue[0])
    ensures OnShortest(g, d, s.queue[0])
  {
    hide ByDistance, DoneShort, Shortest, VisitedFrom, Forest.Above;
    NextFacts(g, s);
    forall path | Shortest(g, path, s.queue[0]) ensures d in path {
      NextVisited(g, s, path);
      assert OnShortest(g, d, path[1]);
      assert d in path[1..];
    }
  }

  lemma NextFacts(g: Graph, s: Config)
    requires ByDistance(g, s) && s.queue != []
    ensures s.queue[0] in s.queue && s.queue[0] in s.forest.rank && Bookkeeping(g, s)
    ensures forall d | s.forest.Above(d, s.queue[0]) :: s.queue[0] != RETURN
  {
    assert s.queue[0] in s.queue;
  }

  lemma PopDoneShort(g: Graph, s: Config)
    requires WellFormed(g) && OnShortestPaths(g, s) && s.todo == {} && s.queue != []
    ensures s.queue[0] in g && Bookkeeping(g, Pop(g, s)) && DoneShort(g, Pop(g, s))
  {
    hide OnShortest, Climbable, Sound, InOrder, OneStep, RanksAreLengths, VisitedShort;
    PopKeepsBookkeeping(g, s);
    NextFacts(g, s);
    var f, p := s.forest, s.queue[0];
    forall a, d | a in Pop(g, s).done && d in f.Up(a) ensures OnShortest(g, d, a) {
      if a == p {
        if d == p {
          SelfShort(g, p);
        } else {
          NextShort(g, s, d);
        }
      }
    }
  }

  lemma SelfShort(g: Graph, a: Addr)
    ensures OnShortest(g, a, a)
  {
  }

  lemma PopVisitedShort(g: Graph, s: Config)
    requires WellFormed(g) && Bookkeeping(g, s) && VisitedShort(g, s) && s.todo == {} && s.queue != []
    ensures s.queue[0] in g && Bookkeeping(g, Pop(g, s)) && VisitedShort(g, Pop(g, s))
  {
    hide OnShortest, VisitedFrom, Distinct, Forest.Above;
    PopKeepsBookkeeping(g, s);
    PopMarksAll(g, s, Pop(g, s));
  }

  lemma PopOnShortestPaths(g: Graph, s: Config)
    requires WellFormed(g) && OnShortestPaths(g, s) && s.todo == {} && s.queue != []
    ensures s.queue[0] in g && OnShortestPaths(g, Pop(g, s))
  {
    hide Bookkeeping, Climbable, Sound, RanksAreLengths, InOrder, OneStep, DoneShort, VisitedShort;
    PopByDistance(g, s);
    PopDoneShort(g, s);
    PopVisitedShort(g, s);
  }

  lemma StartOnShortestPaths(g: Graph)
    requires WellFormed(g)
    ensures OnShortestPaths(g, Start(g))
  {
    StartByDistance(g);
    SelfShort(g, RETURN);
  }

  /** In every state of every run: the ancestors of a block lie on all shortest paths of the blocks it was
      visited from, and of the block itself once it has been taken from the queue. */
  lemma {:induction false} RunOnShortestPaths(g: Graph, tr: seq<Config>, i: nat)
    requires WellFormed(g) && IsRun(g, tr) && i < |tr|
    ensures OnShortestPaths(g, tr[i])
  {
    if i == 0 {
      StartOnShortestPaths(g);
    } else {
      RunOnShortestPaths(g, tr, i - 1);
      hide OnShortestPaths;
      assert Next(g, tr[i - 1], tr[i]);
      if PopStep(g, tr[i - 1], tr[i]) {
        PopOnShortestPaths(g, tr[i - 1]);
      } else {
        var p :| VisitStep(tr[i - 1], tr[i], p);
        VisitOnShortestPaths(g, tr[i - 1], p);
      }
    }
  }

  // ---------------------------------------------------------------- exactness

  /** The tree ancestors of an attached block are exactly its strict post-dominators. */
  ghost predicate ExactTree(g: Graph, f: Forest) {
    && f.Valid()
    && forall a, d | a in f.rank && d != a :: f.Above(d, a) <==> PostDominates(g, d, a)
  }

  /** When the pass has ended, a strict ancestor lies on all shortest paths of all successors. */
  lemma AboveIsShared(g: Graph, s: Config, a: Addr, d: Addr)
    requires WellFormed(g) && OnShortestPaths(g, s) && Finished(s) && a in g
    requires s.forest.Valid() && s.forest.Above(d, a)
    ensures d != a && Shared(g, d, a)
  {
    s.forest.UpStep(a);
    hide OnShortest, Succs, ByDistance, DoneShort;
    forall c | c in Succs(g, a) ensures OnShortest(g, d, c) {
      SuccessorVisited(g, s, a, c);
    }
  }

  /** Decided as far as the ancestors in f go. */
  ghost predicate DecidedIn(g: Graph, f: Forest)
    requires f.Valid()
  {
    forall y, d | f.Above(d, y) && Shared(g, d, y) && Within(g, d, y) :: PostDominates(g, d, y)
  }

  lemma {:induction false} AboveDominates(g: Graph, s: Config, a: Addr, d: Addr)
    requires s.forest.Valid() && DecidedIn(g, s.forest)
    requires WellFormed(g) && OnShortestPaths(g, s) && Finished(s)
    requires s.forest.Valid() && s.forest.Above(d, a)
    ensures PostDominates(g, d, a)
    decreases s.forest.rank[a]
  {
    hide PostDominates, DoneShort, VisitedShort, ByDistance, Shared;
    var f := s.forest;
    AttachedIsBlock(g, s, a);
    AboveIsShared(g, s, a, d);
    f.UpTransitive(f.parent[a], d);
    if z :| z != a && PostDominates(g, z, a) && !PostDominates(g, z, d) {
      DominatorAbove(g, s, a, z);
      f.UpTransitive(f.parent[a], z);
      f.UpChain(f.parent[a], d, z);
      if d == z {
      } else if d in f.Up(z) {
        AboveDominates(g, s, z, d);
        DominanceTransitive(g, d, z, a);
      } else {
        AboveDominates(g, s, d, z);
        assert false;
      }
    }
  }

  lemma DominatorAbove(g: Graph, s: Config, a: Addr, z: Addr)
    requires ByDistance(g, s) && a in s.forest.rank && z != a && PostDominates(g, z, a)
    ensures s.forest.Above(z, a)
  {
    SoundAncestors(g, s.forest, a, z);
  }

  lemma AttachedIsBlock(g: Graph, s: Config, a: Addr)
    requires ByDistance(g, s) && a in s.forest.parent
    ensures a in g && a != RETURN && a in s.forest.rank && s.forest.parent[a] in s.forest.rank
    ensures s.forest.rank[s.forest.parent[a]] < s.forest.rank[a]
  {
  }

  /** With right lookups a finished run is exact if the graph is decided as far as its ancestors go. */
  lemma DecidedRunIsExact(g: Graph, tr: seq<Config>)
    requires WellFormed(g) && IsRun(g, tr) && Finished(tr[|tr| - 1])
    requires tr[|tr| - 1].forest.Valid() && DecidedIn(g, tr[|tr| - 1].forest)
    ensures ExactTree(g, tr[|tr| - 1].forest)
  {
    hide DecidedIn, PostDominates, OnShortestPaths;
    var s := tr[|tr| - 1];
    RunOnShortestPaths(g, tr, |tr| - 1);
    forall a, d | a in s.forest.rank && d != a
      ensures s.forest.Above(d, a) <==> PostDominates(g, d, a)
    {
      if s.forest.Above(d, a) {
        AboveDominates(g, s, a, d);
      }
      if PostDominates(g, d, a) {
        PostDominatorsAreAncestors(g, tr, |tr| - 1, a, d);
      }
    }
  }

  // ---------------------------------------------------------------- runs of the code

  /** Every finished run of the code over a decided graph, whatever the order of its visits, is exact, if no
      block precedes three blocks from which the return block can be reached. */
  lemma DecidedIsExact(g: Graph, tr: seq<Keyed>)
    requires WellFormed(g) && AtMost(g, 2) && Decided(g) && IsKeyedRun(g, tr) && Finished(tr[|tr| - 1].at)
    ensures ExactTree(g, tr[|tr| - 1].at.forest)
  {
    KeyedIsRun(g, tr);
    var s := tr[|tr| - 1];
    KeyedTidy(g, tr, |tr| - 1);
    TidyRooted(g, s);
    DecidedAnyway(g, s.at);
    DecidedRunIsExact(g, PassOf(tr));
  }

  /** A finished run of the code is exact if and only if one more visit of every edge would change nothing. */
  lemma ExactIffStable(g: Graph, tr: seq<Keyed>)
    requires WellFormed(g) && AtMost(g, 2) && IsKeyedRun(g, tr) && Finished(tr[|tr| - 1].at)
    ensures var f := tr[|tr| - 1].at.forest;
            f.Valid() && (Stable(g, f) <==> ExactTree(g, f))
  {
    KeyedIsRun(g, tr);
    RunExactIffStable(g, PassOf(tr));
  }

  /** In every state of every run of the code the ancestors of a block lie on all shortest paths of the blocks it
      was visited from, and of the block itself once it has been taken from the queue. */
  lemma AncestorsOnShortestPaths(g: Graph, tr: seq<Keyed>, i: nat)
    requires WellFormed(g) && AtMost(g, 2) && IsKeyedRun(g, tr) && i < |tr|
    ensures OnShortestPaths(g, tr[i].at)
  {
    KeyedIsRun(g, tr);
    RunOnShortestPaths(g, PassOf(tr), i);
  }

  lemma DecidedAnyway(g: Graph, s: Config)
    requires Bookkeeping(g, s) && Decided(g)
    ensures DecidedIn(g, s.forest)
  {
    hide PostDominates, Shared, Within;
    forall y, d | s.forest.Above(d, y) ensures d != y && y != RETURN {
      s.forest.UpStep(y);
    }
  }

  // ---------------------------------------------------------------- layered graphs

  /** Every edge leads to a block exactly one step nearer to the return block. */
  ghost predicate Layered(g: Graph, level: map<Addr, nat>) {
    && RETURN in level && level[RETURN] == 0
    && forall p, c | Edge(g, p, c) && c in level :: p in level && level[p] == level[c] + 1
  }

  lemma {:induction false} LayeredLength(g: Graph, level: map<Addr, nat>, s: seq<Addr>, a: Addr)
    requires Layered(g, level) && IsPath(g, s, a, RETURN)
    ensures a in level && |s| == level[a] + 1
    decreases |s|
  {
    if |s| > 1 {
      LayeredLength(g, level, s[1..], s[1]);
    }
  }

  /** A graph whose edges all lead one step nearer is decided. */
  lemma LayeredIsDecided(g: Graph, level: map<Addr, nat>)
    requires Layered(g, level)
    ensures Decided(g)
  {
    forall y, d | y != RETURN && d != y && Shared(g, d, y) && Within(g, d, y) ensures PostDominates(g, d, y) {
      forall s | IsPath(g, s, y, RETURN) ensures d in s {
        var c := s[1];
        PathReaches(g, s[1..], c);
        assert c in Succs(g, y);
        forall t | IsPath(g, t, c, RETURN) ensures |s[1..]| <= |t| {
          LayeredLength(g, level, s[1..], c);
          LayeredLength(g, level, t, c);
        }
        assert Shortest(g, s[1..], c);
      }
    }
  }
}
