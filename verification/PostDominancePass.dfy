/** The worklist pass as a state machine, and what holds in every state of every run.

    Here a visit moves a block to the lowest common ancestor.  The code looks that ancestor up in its descendant
    maps; KeyedPass says when it finds it, and that its runs are then runs of this machine.

    The order in which the predecessors of a block are visited is the iteration order of a set of
    pointers, so it is left open: `Next` may visit any predecessor that is still to do. */
module PostDominancePass {
  import opened PostDominance

  /** `cur` is the block being processed, `todo` its predecessors not yet visited, `queue` the
      blocks waiting, and `done` the blocks taken from the queue so far. */
  datatype Config = Config(forest: Forest, cur: Addr, todo: set<Addr>, queue: seq<Addr>, done: set<Addr>)

  function Start(g: Graph): Config
    requires RETURN in g
  {
    Config(Forest(map[], map[RETURN := 0]), RETURN, g[RETURN], [], {RETURN})
  }

  ghost function Visit(s: Config, p: Addr): Config
    requires s.forest.Valid() && s.cur in s.forest.rank
  {
    s.(forest := s.forest.AddPred(s.cur, p),
       todo := s.todo - {p},
       queue := if p in s.forest.parent then s.queue else s.queue + [p])
  }

  function Pop(g: Graph, s: Config): Config
    requires s.queue != [] && s.queue[0] in g
  {
    s.(cur := s.queue[0], todo := g[s.queue[0]], queue := s.queue[1..], done := s.done + {s.queue[0]})
  }

  ghost predicate VisitStep(s: Config, t: Config, p: Addr) {
    p in s.todo && s.forest.Valid() && s.cur in s.forest.rank && t == Visit(s, p)
  }

  ghost predicate PopStep(g: Graph, s: Config, t: Config) {
    s.todo == {} && s.queue != [] && s.queue[0] in g && t == Pop(g, s)
  }

  ghost predicate Next(g: Graph, s: Config, t: Config) {
    PopStep(g, s, t) || exists p :: VisitStep(s, t, p)
  }

  ghost predicate Finished(s: Config) {
    s.todo == {} && s.queue == []
  }

  ghost predicate IsRun(g: Graph, tr: seq<Config>)
    requires RETURN in g
  {
    && |tr| > 0 && tr[0] == Start(g)
    && forall i, j | 0 <= i < j < |tr| && j == i + 1 :: Next(g, tr[i], tr[j])
  }

  // ---------------------------------------------------------------- the invariant

  ghost predicate Distinct(q: seq<Addr>) {
    forall i, j | 0 <= i < j < |q| :: q[i] != q[j]
  }

  /** The attached blocks are those queued and those done; every predecessor of a done block, except
      those the current block has yet to visit, is attached. */
  ghost predicate Bookkeeping(g: Graph, s: Config) {
    && s.forest.Valid() && s.forest.rank.Keys <= g.Keys
    && s.cur in s.done && s.cur in g && s.todo <= g[s.cur]
    && (forall a :: a in s.forest.rank <==> a in s.done || a in s.queue)
    && (forall a | a in s.queue :: a !in s.done)
    && Distinct(s.queue)
    && (forall a | a in s.done && a in g :: g[a] <= s.forest.rank.Keys + if a == s.cur then s.todo else {})
  }

  /** A tree ancestor can be reached by a path that avoids all higher ancestors. */
  ghost predicate Climbable(g: Graph, f: Forest)
    requires f.Valid()
  {
    forall d, y | d in f.rank && y in f.rank && y in f.Up(d) :: Reach(g, d, y, f.Up(y) - {y})
  }

  /** A block that is not an ancestor can be avoided on the way to the return block. */
  ghost predicate Sound(g: Graph, f: Forest)
    requires f.Valid()
  {
    forall d, x | d in f.rank && x !in f.Up(d) :: Reach(g, d, RETURN, {x})
  }

  ghost predicate Inv(g: Graph, s: Config) {
    Bookkeeping(g, s) && Climbable(g, s.forest) && Sound(g, s.forest)
  }

  lemma StartInv(g: Graph)
    requires WellFormed(g)
    ensures Inv(g, Start(g))
  {
    var f := Start(g).forest;
    ReachSelf(g, RETURN, {});
    assert f.Up(RETURN) - {RETURN} == {};
    forall d, x | d in f.rank && x !in f.Up(d)
      ensures Reach(g, d, RETURN, {x})
    {
      ReachSelf(g, RETURN, {x});
    }
  }

  lemma AttachClimbable(g: Graph, f: Forest, c: Addr, p: Addr)
    requires f.Valid() && c in f.rank && p !in f.rank && Edge(g, p, c)
    requires Climbable(g, f)
    ensures f.Attach(p, c).Valid() && Climbable(g, f.Attach(p, c))
  {
    var f' := f.Attach(p, c);
    f.AttachUp(p, c, c);
    forall d, y | d in f'.rank && y in f'.rank && y in f'.Up(d)
      ensures Reach(g, d, y, f'.Up(y) - {y})
    {
      f.AttachUp(p, c, d);
      f.AttachUp(p, c, y);
      if d == p && y == p {
        ReachSelf(g, p, f'.Up(p) - {p});
      } else if d == p {
        f.UpTransitive(c, y);
        f.UpBasics(y);
        ReachPrepend(g, p, c, y, f.Up(y) - {y});
      } else {
        f.UpBasics(d);
      }
    }
  }

  lemma AttachSound(g: Graph, f: Forest, c: Addr, p: Addr)
    requires f.Valid() && c in f.rank && p !in f.rank && Edge(g, p, c)
    requires Sound(g, f)
    ensures f.Attach(p, c).Valid() && Sound(g, f.Attach(p, c))
  {
    var f' := f.Attach(p, c);
    f.AttachUp(p, c, c);
    forall d, x | d in f'.rank && x !in f'.Up(d)
      ensures Reach(g, d, RETURN, {x})
    {
      f.AttachUp(p, c, d);
      if d == p {
        ReachPrepend(g, p, c, RETURN, {x});
      }
    }
  }

  lemma MoveClimbable(g: Graph, f: Forest, c: Addr, p: Addr)
    requires f.Valid() && c in f.rank && p in f.parent
    requires Climbable(g, f)
    ensures f.Move(p, f.Common(c, p)).Valid() && Climbable(g, f.Move(p, f.Common(c, p)))
  {
    f.CommonIsLowest(c, p);
    var n := f.Common(c, p);
    var f' := f.Move(p, n);
    f.MoveUp(p, n, p);
    forall d, y | d in f'.rank && y in f'.rank && y in f'.Up(d)
      ensures Reach(g, d, y, f'.Up(y) - {y})
    {
      f.MoveUp(p, n, d);
      f.MoveUp(p, n, y);
      ReachWeaken(g, d, y, f.Up(y) - {y}, f'.Up(y) - {y});
    }
  }

  lemma MoveSound(g: Graph, f: Forest, c: Addr, p: Addr)
    requires f.Valid() && c in f.rank && p in f.parent && Edge(g, p, c)
    requires Climbable(g, f) && Sound(g, f)
    ensures f.Move(p, f.Common(c, p)).Valid() && Sound(g, f.Move(p, f.Common(c, p)))
  {
    f.CommonIsLowest(c, p);
    var n := f.Common(c, p);
    var q := f.parent[p];
    var f' := f.Move(p, n);
    f.MoveUp(p, n, p);
    forall d, x | d in f'.rank && x !in f'.Up(d)
      ensures Reach(g, d, RETURN, {x})
    {
      f.MoveUp(p, n, d);
      if x in f.Up(d) {
        // x lies between the old and the new parent, so c's path avoids it, and p follows c's path
        assert x in f.Up(q) && x !in f.Up(c);
        f.UpTransitive(q, x);
        ReachPrepend(g, p, c, RETURN, {x});
        ReachWeaken(g, d, p, f.Up(p) - {p}, {x});
        ReachTrans(g, d, p, RETURN, {x});
      }
    }
  }

  /** The books are kept whatever parent the visited block gets. */
  lemma RelinkKeepsBookkeeping(g: Graph, s: Config, f: Forest, p: Addr)
    requires WellFormed(g) && Bookkeeping(g, s) && p in s.todo
    requires f.Valid() && f.rank.Keys == s.forest.rank.Keys + {p}
    ensures Bookkeeping(g, s.(forest := f, todo := s.todo - {p},
                              queue := if p in s.forest.parent then s.queue else s.queue + [p]))
  {
    hide Distinct, Forest.Valid;
    assert p != RETURN;
    QueueGrows(s, p);
  }

  lemma QueueGrows(s: Config, p: Addr)
    requires s.forest.Valid() && p != RETURN && Distinct(s.queue)
    requires forall a :: a in s.forest.rank <==> a in s.done || a in s.queue
    requires forall a | a in s.queue :: a !in s.done
    ensures var q := if p in s.forest.parent then s.queue else s.queue + [p];
            && Distinct(q) && (forall a | a in q :: a !in s.done)
            && (forall a :: a in s.forest.rank.Keys + {p} <==> a in s.done || a in q)
  {
  }

  lemma VisitKeepsBookkeeping(g: Graph, s: Config, p: Addr)
    requires WellFormed(g) && Bookkeeping(g, s) && p in s.todo
    ensures Bookkeeping(g, Visit(s, p))
  {
    var f := s.forest;
    if p in f.parent {
      f.CommonIsLowest(s.cur, p);
      f.MoveUp(p, f.Common(s.cur, p), p);
    } else {
      f.AttachUp(p, s.cur, s.cur);
    }
    RelinkKeepsBookkeeping(g, s, f.AddPred(s.cur, p), p);
  }

  lemma PopKeepsBookkeeping(g: Graph, s: Config)
    requires WellFormed(g) && Bookkeeping(g, s) && s.todo == {} && s.queue != []
    ensures s.queue[0] in g && Bookkeeping(g, Pop(g, s))
  {
    assert s.queue[0] in s.queue;
    DistinctTail(s.queue);
  }

  lemma DistinctTail(q: seq<Addr>)
    requires q != [] && Distinct(q)
    ensures Distinct(q[1..])
    ensures forall a :: a in q[1..] <==> a in q && a != q[0]
  {
    forall a | a in q && a != q[0] ensures a in q[1..] {
      var i :| 0 <= i < |q| && q[i] == a;
      assert q[1..][i - 1] == a;
    }
  }

  lemma VisitKeepsInv(g: Graph, s: Config, p: Addr)
    requires WellFormed(g) && Inv(g, s) && p in s.todo
    ensures Inv(g, Visit(s, p))
  {
    VisitKeepsBookkeeping(g, s, p);
    assert Edge(g, p, s.cur);
    if p in s.forest.parent {
      MoveClimbable(g, s.forest, s.cur, p);
      MoveSound(g, s.forest, s.cur, p);
    } else {
      AttachClimbable(g, s.forest, s.cur, p);
      AttachSound(g, s.forest, s.cur, p);
    }
  }

  lemma {:induction false} RunKeepsInv(g: Graph, tr: seq<Config>, i: nat)
    requires WellFormed(g) && IsRun(g, tr) && i < |tr|
    ensures Inv(g, tr[i])
  {
    if i == 0 {
      StartInv(g);
    } else {
      RunKeepsInv(g, tr, i - 1);
      assert Next(g, tr[i - 1], tr[i]);
      if PopStep(g, tr[i - 1], tr[i]) {
        PopKeepsBookkeeping(g, tr[i - 1]);
      } else {
        var p :| VisitStep(tr[i - 1], tr[i], p);
        VisitKeepsInv(g, tr[i - 1], p);
      }
    }
  }

  // ---------------------------------------------------------------- what the tree means

  /** At every step of every run, each true strict post-dominator of an attached block is one of its
      tree ancestors. */
  lemma PostDominatorsAreAncestors(g: Graph, tr: seq<Config>, i: nat, a: Addr, d: Addr)
    requires WellFormed(g) && IsRun(g, tr) && i < |tr|
    requires a in tr[i].forest.rank && d != a && PostDominates(g, d, a)
    ensures tr[i].forest.Valid() && tr[i].forest.Above(d, a)
  {
    RunKeepsInv(g, tr, i);
    SoundAncestors(g, tr[i].forest, a, d);
  }

  lemma SoundAncestors(g: Graph, f: Forest, a: Addr, d: Addr)
    requires f.Valid() && Sound(g, f)
    requires a in f.rank && d != a && PostDominates(g, d, a)
    ensures f.Above(d, a)
  {
    AvoidedIsNoPostDominator(g, a, d);
    f.UpStep(a);
    assert d !in f.Up(a) ==> Reach(g, a, RETURN, {d});
  }

  lemma AvoidedIsNoPostDominator(g: Graph, a: Addr, d: Addr)
    ensures Reach(g, a, RETURN, {d}) ==> !PostDominates(g, d, a)
  {
    if Reach(g, a, RETURN, {d}) {
      var s :| IsPath(g, s, a, RETURN) && forall v | v in s :: v !in {d};
      assert d !in s;
    }
  }

  /** Every block that precedes an attached one is attached. */
  ghost predicate Closed(g: Graph, f: Forest) {
    forall a, b | Edge(g, a, b) && b in f.rank :: a in f.rank
  }

  lemma FinishedIsClosed(g: Graph, s: Config)
    requires Bookkeeping(g, s) && Finished(s)
    ensures Closed(g, s.forest)
  {
  }

  /** From its end a path to the return block meets only attached blocks. */
  lemma {:induction false} PathAttached(g: Graph, f: Forest, path: seq<Addr>, a: Addr)
    requires f.Valid() && Closed(g, f) && IsPath(g, path, a, RETURN)
    ensures a in f.rank
    decreases |path|
  {
    if |path| > 1 {
      PathAttached(g, f, path[1..], path[1]);
    }
  }

  /** Another visit of any edge would leave the tree as it is. */
  ghost predicate Stable(g: Graph, f: Forest)
    requires f.Valid()
  {
    forall p, c | p in f.parent && c in f.rank && Edge(g, p, c) :: f.AddPred(c, p) == f
  }

  lemma StableEdge(g: Graph, f: Forest, p: Addr, c: Addr)
    requires f.Valid() && p in f.parent && c in f.rank
    ensures f.AddPred(c, p) == f <==> f.parent[p] in f.Up(c)
  {
    f.CommonIsLowest(c, p);
    f.UpBasics(f.parent[p]);
    var n := f.Common(c, p);
    if f.parent[p] in f.Up(c) {
      f.UpTransitive(f.parent[p], n);
      f.UpTransitive(n, f.parent[p]);
      assert f.parent[p := n] == f.parent;
    }
    if f.AddPred(c, p) == f {
      assert f.Move(p, n).parent[p] == n;
    }
  }

  lemma {:induction false} StableAncestorOnPath(g: Graph, f: Forest, path: seq<Addr>, a: Addr, x: Addr)
    requires f.Valid() && Closed(g, f) && Stable(g, f)
    requires IsPath(g, path, a, RETURN) && f.Above(x, a)
    ensures x in path
    decreases |path|
  {
    var b := path[1];
    PathAttached(g, f, path[1..], b);
    StableEdge(g, f, a, b);
    f.UpTransitive(b, f.parent[a]);
    if x != b {
      StableAncestorOnPath(g, f, path[1..], b, x);
    }
  }

  /** The ancestors in a tree from which no true post-dominator is missing are exactly the strict post-dominators if
      and only if another visit of every edge would change nothing. */
  lemma ExactnessIsStability(g: Graph, f: Forest)
    requires f.Valid() && Closed(g, f) && Sound(g, f)
    ensures Stable(g, f) <==>
            forall a, d | a in f.rank && d != a :: f.Above(d, a) <==> PostDominates(g, d, a)
  {
    if Stable(g, f) {
      forall a, d | a in f.rank && d != a
        ensures f.Above(d, a) <==> PostDominates(g, d, a)
      {
        if f.Above(d, a) {
          forall path | IsPath(g, path, a, RETURN) ensures d in path {
            StableAncestorOnPath(g, f, path, a, d);
          }
        } else if PostDominates(g, d, a) {
          SoundAncestors(g, f, a, d);
        }
      }
    }
    if forall a, d | a in f.rank && d != a :: f.Above(d, a) <==> PostDominates(g, d, a) {
      forall p, c | p in f.parent && c in f.rank && Edge(g, p, c)
        ensures f.AddPred(c, p) == f
      {
        ParentOnPaths(g, f, p, c);
        if f.parent[p] != c {
          SoundAncestors(g, f, c, f.parent[p]);
        }
        f.UpBasics(c);
        StableEdge(g, f, p, c);
      }
    }
  }

  /** The ancestors computed by a finished pass are exactly the strict post-dominators if and only if
      one more visit of every edge would change nothing. */
  lemma RunExactIffStable(g: Graph, tr: seq<Config>)
    requires WellFormed(g) && IsRun(g, tr) && Finished(tr[|tr| - 1])
    ensures var f := tr[|tr| - 1].forest;
            f.Valid() &&
            (Stable(g, f) <==>
             forall a, d | a in f.rank && d != a :: f.Above(d, a) <==> PostDominates(g, d, a))
  {
    RunKeepsInv(g, tr, |tr| - 1);
    FinishedIsClosed(g, tr[|tr| - 1]);
    ExactnessIsStability(g, tr[|tr| - 1].forest);
  }

  lemma ParentOnPaths(g: Graph, f: Forest, p: Addr, c: Addr)
    requires f.Valid() && p in f.parent && Edge(g, p, c)
    requires PostDominates(g, f.parent[p], p) || !f.Above(f.parent[p], p)
    ensures PostDominates(g, f.parent[p], c)
  {
    f.UpBasics(f.parent[p]);
    var q := f.parent[p];
    forall path | IsPath(g, path, c, RETURN) ensures q in path {
      assert ([p] + path)[1..] == path;
      assert IsPath(g, [p] + path, p, RETURN);
      assert q in [p] + path;
    }
  }
}
