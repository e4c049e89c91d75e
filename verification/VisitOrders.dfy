/** The exact condition for exact runs, in terms of the graph and the order of the visits.

    Which blocks wait in the queue and which edges are visited next does not depend on the tree.  After every visit
    the edges visited so far form a subgraph.  A run is exact if and only if no visit of an edge takes a
    post-dominator, in these subgraphs, from a block that the source of the edge does not post-dominate. */
module VisitOrders {
  import opened PostDominance
  import opened PostDominancePass
  import opened KeyedPass
  import opened PassExactness

  // ---------------------------------------------------------------- orders

  /** A state of the pass without its tree. */
  datatype Turn = Turn(cur: Addr, todo: set<Addr>, queue: seq<Addr>, done: set<Addr>)

  function FirstTurn(g: Graph): Turn
    requires RETURN in g
  {
    Turn(RETURN, g[RETURN], [], {RETURN})
  }

  /** Visiting the edge from p queues p if it has not been met. */
  function Visiting(o: Turn, p: Addr): Turn {
    o.(todo := o.todo - {p}, queue := if p in o.done || p in o.queue then o.queue else o.queue + [p])
  }

  function Taking(g: Graph, o: Turn): Turn
    requires o.queue != [] && o.queue[0] in g
  {
    Turn(o.queue[0], g[o.queue[0]], o.queue[1..], o.done + {o.queue[0]})
  }

  ghost predicate TakesNext(g: Graph, o: Turn, o': Turn) {
    o.todo == {} && o.queue != [] && o.queue[0] in g && o' == Taking(g, o)
  }

  ghost predicate Follow(g: Graph, o: Turn, o': Turn) {
    TakesNext(g, o, o') || exists p :: p in o.todo && o' == Visiting(o, p)
  }

  ghost predicate IsOrder(g: Graph, os: seq<Turn>)
    requires RETURN in g
  {
    && |os| > 0 && os[0] == FirstTurn(g)
    && forall i, j | 0 <= i < j < |os| && j == i + 1 :: Follow(g, os[i], os[j])
  }

  ghost predicate Ended(o: Turn) {
    o.todo == {} && o.queue == []
  }

  /** The edges visited so far. */
  function Seen(g: Graph, o: Turn): Graph {
    map c | c in g :: if c !in o.done then {} else if c == o.cur then g[c] - o.todo else g[c]
  }

  /** Only blocks that p post-dominates in G have lost a post-dominator in H. */
  ghost predicate LosesBelow(G: Graph, H: Graph, p: Addr) {
    forall x, y | PostDominates(G, x, y) && !PostDominates(H, x, y) :: PostDominates(G, p, y)
  }

  /** Visiting the edge from p takes a post-dominator only from blocks that p post-dominates. */
  ghost predicate Harmless(g: Graph, o: Turn, p: Addr) {
    LosesBelow(Seen(g, o), Seen(g, Visiting(o, p)), p)
  }

  /** All visits among the first n steps are harmless. */
  ghost predicate Gentle(g: Graph, os: seq<Turn>, n: nat)
    requires n < |os|
  {
    forall i, p | 0 <= i < n && p in os[i].todo && os[i + 1] == Visiting(os[i], p) :: Harmless(g, os[i], p)
  }

  function TurnOf(s: Config): Turn {
    Turn(s.cur, s.todo, s.queue, s.done)
  }

  ghost function OrderOf(tr: seq<Keyed>): seq<Turn> {
    seq(|tr|, i requires 0 <= i < |tr| => TurnOf(tr[i].at))
  }

  // ---------------------------------------------------------------- subgraphs

  ghost predicate Subgraph(G: Graph, H: Graph) {
    forall a, b | Edge(G, a, b) :: Edge(H, a, b)
  }

  lemma {:induction false} PathWithin(G: Graph, H: Graph, s: seq<Addr>, a: Addr, b: Addr)
    requires Subgraph(G, H) && IsPath(G, s, a, b)
    ensures IsPath(H, s, a, b)
    decreases |s|
  {
    if |s| > 1 {
      PathWithin(G, H, s[1..], s[1], b);
    }
  }

  lemma ReachWithin(G: Graph, H: Graph, a: Addr, b: Addr, avoid: set<Addr>)
    requires Subgraph(G, H) && Reach(G, a, b, avoid)
    ensures Reach(H, a, b, avoid)
  {
    var s :| IsPath(G, s, a, b) && forall v | v in s :: v !in avoid;
    PathWithin(G, H, s, a, b);
  }

  lemma TreeWithin(G: Graph, H: Graph, f: Forest)
    requires Subgraph(G, H) && f.Valid() && Climbable(G, f) && Sound(G, f)
    ensures Climbable(H, f) && Sound(H, f)
  {
    hide Forest.Valid, Forest.Up, Reach, Subgraph;
    forall d, y | d in f.rank && y in f.rank && y in f.Up(d) ensures Reach(H, d, y, f.Up(y) - {y}) {
      ReachWithin(G, H, d, y, f.Up(y) - {y});
    }
    forall d, x | d in f.rank && x !in f.Up(d) ensures Reach(H, d, RETURN, {x}) {
      ReachWithin(G, H, d, RETURN, {x});
    }
  }

  // ---------------------------------------------------------------- one more edge

  /** H has the edges of G and the edge from p to c. */
  ghost predicate OneMore(G: Graph, H: Graph, p: Addr, c: Addr) {
    forall a, b :: Edge(H, a, b) <==> Edge(G, a, b) || (a == p && b == c)
  }

  /** All edges connect attached blocks. */
  ghost predicate Covered(G: Graph, f: Forest) {
    forall a, b | Edge(G, a, b) :: a in f.rank && b in f.rank
  }

  /** Every edge leads to a block that the parent of its source is an ancestor of. */
  ghost predicate Upheld(G: Graph, f: Forest)
    requires f.Valid()
  {
    forall p, c | p in f.parent && c in f.rank && Edge(G, p, c) :: f.parent[p] in f.Up(c)
  }

  lemma StableIsUpheld(G: Graph, f: Forest)
    requires f.Valid()
    ensures Stable(G, f) <==> Upheld(G, f)
  {
    hide Forest.AddPred, Forest.Up;
    forall p, c | p in f.parent && c in f.rank && Edge(G, p, c)
      ensures f.AddPred(c, p) == f <==> f.parent[p] in f.Up(c)
    {
      StableEdge(g := G, f := f, p := p, c := c);
    }
  }

  ghost predicate Exact(G: Graph, f: Forest)
    requires f.Valid()
  {
    forall a, d | a in f.rank && d != a :: f.Above(d, a) <==> PostDominates(G, d, a)
  }

  lemma UpheldIsExact(G: Graph, f: Forest)
    requires f.Valid() && Covered(G, f) && Sound(G, f)
    ensures Upheld(G, f) <==> Exact(G, f)
  {
    StableIsUpheld(G, f);
    ExactnessIsStability(G, f);
  }

  /** A block from which no edge leads has no path to the return block. */
  lemma NoWayOut(G: Graph, f: Forest, y: Addr, x: Addr)
    requires f.Valid() && Covered(G, f) && y !in f.rank
    ensures PostDominates(G, x, y)
  {
    forall s ensures !IsPath(G, s, y, RETURN) {
    }
  }

  // ---------------------------------------------------------------- a block that is met for the first time

  lemma AttachUpheld(G: Graph, H: Graph, f: Forest, c: Addr, p: Addr)
    requires f.Valid() && Covered(G, f) && OneMore(G, H, p, c) && c in f.rank && p !in f.rank
    ensures f.Attach(p, c).Valid() && (Upheld(H, f.Attach(p, c)) <==> Upheld(G, f))
  {
    var f' := f.Attach(p, c);
    f.AttachUp(p, c, c);
    f'.UpBasics(c);
    forall a, b | a in f.parent && b in f.rank && Edge(G, a, b)
      ensures Edge(H, a, b) && f'.parent[a] == f.parent[a] && f'.Up(b) == f.Up(b)
    {
      f.AttachUp(p, c, b);
    }
  }

  lemma {:induction false} OldPath(G: Graph, H: Graph, f: Forest, c: Addr, p: Addr, s: seq<Addr>, y: Addr)
    requires Covered(G, f) && OneMore(G, H, p, c) && p !in f.rank && c != p && y != p && IsPath(H, s, y, RETURN)
    ensures IsPath(G, s, y, RETURN)
    decreases |s|
  {
    if |s| > 1 {
      OldPath(G, H, f, c, p, s[1..], s[1]);
    }
  }

  lemma AttachHarmless(G: Graph, H: Graph, f: Forest, c: Addr, p: Addr)
    requires Covered(G, f) && OneMore(G, H, p, c) && c in f.rank && p !in f.rank
    ensures LosesBelow(G, H, p)
  {
    OwnPostDominator(G, p);
    forall x, y | PostDominates(G, x, y) && y != p ensures PostDominates(H, x, y) {
      forall s | IsPath(H, s, y, RETURN) ensures x in s {
        OldPath(G, H, f, c, p, s, y);
      }
    }
  }

  lemma OwnPostDominator(G: Graph, a: Addr)
    ensures PostDominates(G, a, a)
  {
  }

  // ---------------------------------------------------------------- a block that is moved

  /** What holds when the edge from an attached block p to c is visited as its second one. */
  ghost predicate Second(G: Graph, H: Graph, f: Forest, c: Addr, p: Addr) {
    && f.Valid() && Covered(G, f) && OneMore(G, H, p, c) && c in f.rank && p in f.parent
    && forall b | Edge(G, p, b) :: b == f.parent[p]
  }

  lemma MoveBasics(f: Forest, c: Addr, p: Addr, b: Addr)
    requires f.Valid() && c in f.rank && p in f.parent && b in f.rank
    ensures var n, f' := f.Common(c, p), f.Move(p, f.Common(c, p));
            && f'.Valid() && n in f.rank && n in f.Up(c) && n in f.Up(f.parent[p])
            && f'.Up(b) == (if p in f.Up(b) then f.Up(b) - (f.Up(f.parent[p]) - f.Up(n)) else f.Up(b))
            && n in f.Up(n)
  {
    f.CommonIsLowest(c, p);
    f.MoveUp(p, f.Common(c, p), b);
    f.UpBasics(f.Common(c, p));
  }

  /** What is upheld after a move was upheld before. */
  lemma MoveWasUpheld(G: Graph, H: Graph, f: Forest, c: Addr, p: Addr)
    requires Second(G, H, f, c, p)
    ensures f.Move(p, f.Common(c, p)).Valid()
    ensures Upheld(H, f.Move(p, f.Common(c, p))) ==> Upheld(G, f)
  {
    hide Forest.Up, Forest.Common;
    var f' := f.Move(p, f.Common(c, p));
    MoveBasics(f, c, p, c);
    if Upheld(H, f') {
      forall a, b | a in f.parent && b in f.rank && Edge(G, a, b) ensures f.parent[a] in f.Up(b) {
        MoveBasics(f, c, p, b);
        f.UpBasics(b);
        assert Edge(H, a, b);
      }
    }
  }

  lemma MovedIsCovered(G: Graph, H: Graph, f: Forest, c: Addr, p: Addr)
    requires Second(G, H, f, c, p)
    ensures Covered(H, f.Move(p, f.Common(c, p)))
  {
    hide Forest.Common;
  }

  /** If nothing has gone wrong before and after a move, it was harmless. */
  lemma UpheldMoveIsHarmless(G: Graph, H: Graph, f: Forest, c: Addr, p: Addr)
    requires Second(G, H, f, c, p) && Sound(G, f) && Upheld(G, f)
    requires var f' := f.Move(p, f.Common(c, p)); f'.Valid() && Sound(H, f') && Upheld(H, f')
    ensures LosesBelow(G, H, p)
  {
    hide Forest.Common, Upheld, Sound, PostDominates;
    var f' := f.Move(p, f.Common(c, p));
    UpheldIsExact(G, f);
    MovedIsCovered(G, H, f, c, p);
    UpheldIsExact(H, f');
    forall x, y | PostDominates(G, x, y) && !PostDominates(H, x, y) ensures PostDominates(G, p, y) {
      OwnPostDominator(H, y);
      OwnPostDominator(G, p);
      if y !in f.rank {
        NoWayOut(G, f, y, p);
      } else {
        MoveBasics(f, c, p, y);
        f.UpStep(y);
        f'.UpStep(y);
      }
    }
  }

  /** A harmless move upholds what was upheld. */
  lemma HarmlessMoveUpheld(G: Graph, H: Graph, f: Forest, c: Addr, p: Addr)
    requires Second(G, H, f, c, p) && Sound(G, f) && Upheld(G, f) && LosesBelow(G, H, p)
    requires var f' := f.Move(p, f.Common(c, p)); f'.Valid() && Sound(H, f')
    ensures Upheld(H, f.Move(p, f.Common(c, p)))
  {
    hide Forest.Common, Forest.Up, Sound, LosesBelow;
    var f' := f.Move(p, f.Common(c, p));
    forall a, b | a in f'.parent && b in f'.rank && Edge(H, a, b) ensures f'.parent[a] in f'.Up(b) {
      MoveBasics(f, c, p, b);
      if a != p {
        ParentStaysAbove(G, H, f, c, p, a, b);
      }
    }
  }

  lemma ParentStaysAbove(G: Graph, H: Graph, f: Forest, c: Addr, p: Addr, a: Addr, b: Addr)
    requires Second(G, H, f, c, p) && Sound(G, f) && Upheld(G, f) && LosesBelow(G, H, p)
    requires var f' := f.Move(p, f.Common(c, p)); f'.Valid() && Sound(H, f')
    requires a != p && a in f.parent && b in f.rank && Edge(G, a, b)
    ensures f.parent[a] in f.Move(p, f.Common(c, p)).Up(b)
  {
    hide Forest.Common, LosesBelow;
    var f', x, q := f.Move(p, f.Common(c, p)), f.parent[a], f.parent[p];
    MoveBasics(f, c, p, b);
    if x !in f'.Up(b) {
      assert x in f.Up(b) && x in f.Up(q);
      ReachPrepend(H, a, b, RETURN, {x});
      AvoidedIsNoPostDominator(H, a, x);
      ParentBelow(G, H, f, p, a);
      f.UpTransitive(q, x);
      f.UpTransitive(x, p);
      assert false;
    }
  }

  /** A block whose parent is lost as a post-dominator lies below p, and so does its parent. */
  lemma ParentBelow(G: Graph, H: Graph, f: Forest, p: Addr, a: Addr)
    requires f.Valid() && Covered(G, f) && Sound(G, f) && Upheld(G, f) && LosesBelow(G, H, p)
    requires a != p && a in f.parent && !PostDominates(H, f.parent[a], a)
    ensures p in f.Up(f.parent[a])
  {
    hide Sound, Upheld, PostDominates, Forest.Up;
    UpheldIsExact(G, f);
    f.UpBasics(f.parent[a]);
    f.UpStep(a);
    assert PostDominates(G, f.parent[a], a);
    assert PostDominates(G, p, a);
  }

  // ---------------------------------------------------------------- what every state keeps

  lemma SeenEdge(g: Graph, s: Config, p: Addr, c: Addr)
    ensures Edge(Seen(g, TurnOf(s)), p, c) <==> c in VisitedFrom(g, s, p)
  {
  }

  lemma SeenCovered(g: Graph, s: Config)
    requires Bookkeeping(g, s)
    ensures Covered(Seen(g, TurnOf(s)), s.forest)
  {
  }

  lemma SeenGrows(g: Graph, s: Config, p: Addr)
    requires Bookkeeping(g, s) && p in s.todo
    ensures OneMore(Seen(g, TurnOf(s)), Seen(g, Visiting(TurnOf(s), p)), p, s.cur)
  {
  }

  lemma SeenSame(g: Graph, s: Config)
    requires Bookkeeping(g, s) && s.todo == {} && s.queue != [] && s.queue[0] in g
    ensures Seen(g, TurnOf(Pop(g, s))) == Seen(g, TurnOf(s))
  {
    hide Distinct, Forest.Valid;
    var o, o' := TurnOf(s), TurnOf(Pop(g, s));
    assert s.queue[0] in s.queue;
    forall c | c in g ensures Seen(g, o')[c] == Seen(g, o)[c] {
      if c == s.queue[0] {
        assert g[c] - g[c] == {};
      } else if c == s.cur {
        assert g[c] - {} == g[c];
      }
    }
  }

  lemma TurnOfVisit(g: Graph, s: Config, p: Addr)
    requires WellFormed(g) && Bookkeeping(g, s) && p in s.todo
    ensures TurnOf(Visit(s, p)) == Visiting(TurnOf(s), p)
  {
    TodoFacts(g, s, p);
  }

  /** A block visited once has the parent it was visited from. */
  ghost predicate Once(g: Graph, s: Config) {
    forall p | p in s.forest.parent && |VisitedFrom(g, s, p)| <= 1 :: s.forest.parent[p] in VisitedFrom(g, s, p)
  }

  /** The tree is climbable and sound for the edges visited so far. */
  ghost predicate Partial(g: Graph, s: Config) {
    && s.forest.Valid() && Once(g, s)
    && Climbable(Seen(g, TurnOf(s)), s.forest) && Sound(Seen(g, TurnOf(s)), s.forest)
  }

  lemma StartPartial(g: Graph)
    requires WellFormed(g)
    ensures Partial(g, Start(g)) && Upheld(Seen(g, FirstTurn(g)), Start(g).forest)
  {
    var f, G := Start(g).forest, Seen(g, FirstTurn(g));
    assert f.Up(RETURN) == {RETURN};
    ReachSelf(G, RETURN, {});
    forall d, x | d in f.rank && x !in f.Up(d) ensures Reach(G, d, RETURN, {x}) {
      ReachSelf(G, RETURN, {x});
    }
    assert f.Up(RETURN) - {RETURN} == {};
  }

  lemma VisitClimbs(G: Graph, H: Graph, f: Forest, c: Addr, p: Addr)
    requires f.Valid() && c in f.rank && p != RETURN && OneMore(G, H, p, c) && Climbable(G, f) && Sound(G, f)
    ensures f.AddPred(c, p).Valid() && Climbable(H, f.AddPred(c, p)) && Sound(H, f.AddPred(c, p))
  {
    hide Forest.Common, Forest.Up, Climbable, Sound;
    TreeWithin(G, H, f);
    if p in f.parent {
      MoveClimbable(H, f, c, p);
      MoveSound(H, f, c, p);
    } else {
      AttachClimbable(H, f, c, p);
      AttachSound(H, f, c, p);
    }
  }

  lemma OneElement(s: set<Addr>, a: Addr, b: Addr)
    requires |s| <= 1 && a in s && b in s
    ensures a == b
  {
    if a != b {
      SubsetSize({a, b}, s);
    }
  }

  lemma VisitOnce(g: Graph, s: Config, p: Addr)
    requires WellFormed(g) && Bookkeeping(g, s) && AttachedIffVisited(g, s) && Once(g, s) && p in s.todo
    ensures Once(g, Visit(s, p))
  {
    hide VisitedFrom, Forest.Common, Forest.Up;
    TodoFacts(g, s, p);
    VisitKeepsBookkeeping(g, s, p);
    var t := Visit(s, p);
    forall d | d in t.forest.parent && |VisitedFrom(g, t, d)| <= 1 ensures t.forest.parent[d] in VisitedFrom(g, t, d) {
      VisitMarks(g, s, t, p, d);
      if d == p && p in s.forest.parent {
        var b :| b in VisitedFrom(g, s, p);
        OneElement(VisitedFrom(g, t, p), b, s.cur);
      }
    }
  }

  /** When the edge from an attached block is visited, it is the second one. */
  lemma IsSecond(g: Graph, s: Config, p: Addr)
    requires WellFormed(g) && AtMost(g, 2) && Bookkeeping(g, s) && Reached(g, s.forest)
    requires AttachedIffVisited(g, s) && Once(g, s) && p in s.todo && p in s.forest.parent
    ensures Second(Seen(g, TurnOf(s)), Seen(g, Visiting(TurnOf(s), p)), s.forest, s.cur, p)
  {
    hide AtMost, Succs, Once, Reached, AttachedIffVisited, VisitedFrom, Seen, Forest.Common, Forest.Up, WellFormed;
    TodoFacts(g, s, p);
    SeenCovered(g, s);
    SeenGrows(g, s, p);
    VisitsCounted(g, s, Visit(s, p), p);
    FewSuccs(g, p);
    OnceHas(g, s, p);
    forall b | Edge(Seen(g, TurnOf(s)), p, b) ensures b == s.forest.parent[p] {
      SeenEdge(g, s, p, b);
      OneElement(VisitedFrom(g, s, p), b, s.forest.parent[p]);
    }
  }

  lemma OnceHas(g: Graph, s: Config, p: Addr)
    requires Once(g, s) && p in s.forest.parent && |VisitedFrom(g, s, p)| <= 1
    ensures s.forest.parent[p] in VisitedFrom(g, s, p)
  {
  }

  // ---------------------------------------------------------------- one step

  /** One visit: all is still upheld if and only if all was and the visit is harmless. */
  lemma VisitStaysUpheld(g: Graph, s: Config, p: Addr)
    requires WellFormed(g) && AtMost(g, 2) && Bookkeeping(g, s) && Reached(g, s.forest)
    requires AttachedIffVisited(g, s) && Partial(g, s) && p in s.todo
    ensures var t, o := Visit(s, p), TurnOf(s);
            && Partial(g, t) && TurnOf(t) == Visiting(o, p)
            && (Upheld(Seen(g, Visiting(o, p)), t.forest) <==> Upheld(Seen(g, o), s.forest) && Harmless(g, o, p))
  {
    hide WellFormed, AtMost, Bookkeeping, Reached, AttachedIffVisited, Seen, Climbable, Sound, Once, Upheld, LosesBelow,
      Second, OneMore, Covered, Forest.Common, Forest.Up;
    var f, c, G, H := s.forest, s.cur, Seen(g, TurnOf(s)), Seen(g, Visiting(TurnOf(s), p));
    TodoFacts(g, s, p);
    TurnOfVisit(g, s, p);
    VisitOnce(g, s, p);
    SeenCovered(g, s);
    SeenGrows(g, s, p);
    VisitClimbs(G, H, f, c, p);
    if p in f.parent {
      IsSecond(g, s, p);
      MoveWasUpheld(G, H, f, c, p);
      if Upheld(G, f) && Upheld(H, f.AddPred(c, p)) {
        UpheldMoveIsHarmless(G, H, f, c, p);
      }
      if Upheld(G, f) && LosesBelow(G, H, p) {
        HarmlessMoveUpheld(G, H, f, c, p);
      }
    } else {
      AttachUpheld(G, H, f, c, p);
      AttachHarmless(G, H, f, c, p);
    }
  }

  /** Taking the next block from the queue leaves tree and visited edges as they are. */
  lemma PopStaysUpheld(g: Graph, s: Config, t: Config)
    requires WellFormed(g) && Bookkeeping(g, s) && Partial(g, s) && PopStep(g, s, t)
    ensures Partial(g, t) && TakesNext(g, TurnOf(s), TurnOf(t))
    ensures Upheld(Seen(g, TurnOf(t)), t.forest) <==> Upheld(Seen(g, TurnOf(s)), s.forest)
  {
    hide Seen, Climbable, Sound, Upheld, VisitedFrom;
    SeenSame(g, s);
    PopMarksAll(g, s, t);
  }

  // ---------------------------------------------------------------- whole runs

  lemma GentleStep(g: Graph, os: seq<Turn>, n: nat)
    requires n + 1 < |os|
    ensures Gentle(g, os, n + 1) <==>
            && Gentle(g, os, n)
            && forall p | p in os[n].todo && os[n + 1] == Visiting(os[n], p) :: Harmless(g, os[n], p)
  {
    hide Harmless;
  }

  /** At every point of a run nothing has gone wrong if and only if all visits so far were harmless. */
  lemma {:induction false} UpheldIffGentle(g: Graph, tr: seq<Keyed>, n: nat)
    requires WellFormed(g) && AtMost(g, 2) && IsKeyedRun(g, tr) && n < |tr|
    ensures |OrderOf(tr)| == |tr| && Partial(g, tr[n].at)
    ensures Upheld(Seen(g, TurnOf(tr[n].at)), tr[n].at.forest) <==> Gentle(g, OrderOf(tr), n)
    decreases n
  {
    hide AtMost, Follows, Partial, Upheld, Seen, Gentle, Harmless, Visiting, IsKeyedRun, OrderOf;
    RunParts(g, tr, n);
    if n == 0 {
      StartPartial(g);
      GentleFirst(g, OrderOf(tr));
    } else {
      UpheldIffGentle(g, tr, n - 1);
      RunParts(g, tr, n - 1);
      KeyedFollows(g, tr, n - 1);
      StepKeepsUpheld(g, tr[n - 1], tr[n]);
      GentleStep(g, OrderOf(tr), n - 1);
    }
  }

  lemma RunParts(g: Graph, tr: seq<Keyed>, n: nat)
    requires RETURN in g && IsKeyedRun(g, tr) && n < |tr|
    ensures tr[0] == KeyedStart(g) && TurnOf(tr[0].at) == FirstTurn(g)
    ensures |OrderOf(tr)| == |tr| && OrderOf(tr)[n] == TurnOf(tr[n].at)
    ensures n > 0 ==> KeyedNext(g, tr[n - 1], tr[n])
  {
    hide KeyedNext;
  }

  lemma GentleFirst(g: Graph, os: seq<Turn>)
    requires |os| > 0
    ensures Gentle(g, os, 0)
  {
  }

  lemma StepKeepsUpheld(g: Graph, s: Keyed, t: Keyed)
    requires WellFormed(g) && AtMost(g, 2) && Follows(g, s) && Partial(g, s.at) && KeyedNext(g, s, t)
    ensures Partial(g, t.at) && Follow(g, TurnOf(s.at), TurnOf(t.at))
    ensures Upheld(Seen(g, TurnOf(t.at)), t.at.forest) <==>
            && Upheld(Seen(g, TurnOf(s.at)), s.at.forest)
            && forall p | p in s.at.todo && TurnOf(t.at) == Visiting(TurnOf(s.at), p) :: Harmless(g, TurnOf(s.at), p)
  {
    hide WellFormed, AtMost, Bookkeeping, Reached, AttachedIffVisited, Partial, Upheld, Seen, Harmless, KeyedVisited,
      Visit, Visiting;
    if KeyedPop(g, s, t) {
      PopStaysUpheld(g, s.at, t.at);
    } else {
      var p :| KeyedVisit(s, t, p);
      VisitFollows(g, s, p);
      VisitStaysUpheld(g, s.at, p);
      forall q | q in s.at.todo && TurnOf(t.at) == Visiting(TurnOf(s.at), q) ensures q == p {
        OneVisited(TurnOf(s.at), p, q);
      }
    }
  }

  lemma OneVisited(o: Turn, p: Addr, q: Addr)
    requires p in o.todo && q in o.todo && Visiting(o, p) == Visiting(o, q)
    ensures p == q
  {
    assert q !in Visiting(o, q).todo;
  }

  /** A finished run of the code is exact if and only if no visit of it took a post-dominator from a block that the
      visited one did not post-dominate. */
  lemma ExactIffGentle(g: Graph, tr: seq<Keyed>)
    requires WellFormed(g) && AtMost(g, 2) && IsKeyedRun(g, tr) && Finished(tr[|tr| - 1].at)
    ensures ExactTree(g, tr[|tr| - 1].at.forest) <==> Gentle(g, OrderOf(tr), |tr| - 1)
  {
    hide WellFormed, AtMost, Stable, Gentle, Bookkeeping, Upheld, Seen, ExactTree, KeyedNext;
    var s := tr[|tr| - 1].at;
    KeyedTidy(g, tr, |tr| - 1);
    UpheldIffGentle(g, tr, |tr| - 1);
    ExactIffStable(g, tr);
    StableIsUpheld(g, s.forest);
    AllSeen(g, s);
  }

  lemma AllSeen(g: Graph, s: Config)
    requires Bookkeeping(g, s) && Finished(s)
    ensures Upheld(Seen(g, TurnOf(s)), s.forest) <==> Upheld(g, s.forest)
  {
    forall a, b | b in s.forest.rank ensures Edge(Seen(g, TurnOf(s)), a, b) <==> Edge(g, a, b) {
    }
  }

  // ---------------------------------------------------------------- all runs on a graph

  /** The order of a run is a legal one. */
  lemma RunHasOrder(g: Graph, tr: seq<Keyed>)
    requires WellFormed(g) && AtMost(g, 2) && IsKeyedRun(g, tr)
    ensures IsOrder(g, OrderOf(tr))
  {
    hide AtMost, Follows, Partial, Upheld, Seen, Follow, IsKeyedRun;
    RunNotEmpty(g, tr);
    RunParts(g, tr, 0);
    forall i, j | 0 <= i < j < |tr| && j == i + 1 ensures Follow(g, OrderOf(tr)[i], OrderOf(tr)[j]) {
      RunParts(g, tr, j);
      KeyedFollows(g, tr, i);
      UpheldIffGentle(g, tr, i);
      StepKeepsUpheld(g, tr[i], tr[j]);
    }
  }

  lemma RunNotEmpty(g: Graph, tr: seq<Keyed>)
    requires RETURN in g && IsKeyedRun(g, tr)
    ensures |tr| > 0
  {
  }

  /** Every legal order is that of a run. */
  lemma {:induction false} OrderHasRun(g: Graph, os: seq<Turn>, n: nat) returns (tr: seq<Keyed>)
    requires WellFormed(g) && IsOrder(g, os) && n < |os|
    ensures IsKeyedRun(g, tr) && OrderOf(tr) == os[..n + 1]
    decreases n
  {
    hide Follow, Tidy, KeyedNext;
    if n == 0 {
      tr := [KeyedStart(g)];
      assert OrderOf(tr) == os[..1];
    } else {
      tr := OrderHasRun(g, os, n - 1);
      var s := tr[n - 1];
      assert TurnOf(s.at) == OrderOf(tr)[n - 1] == os[n - 1];
      KeyedTidy(g, tr, n - 1);
      var t := StepOfOrder(g, s, os[n]);
      ExtendRun(g, tr, t);
      tr := tr + [t];
      assert OrderOf(tr) == os[..n + 1];
    }
  }

  lemma StepOfOrder(g: Graph, s: Keyed, o: Turn) returns (t: Keyed)
    requires WellFormed(g) && Tidy(g, s) && Follow(g, TurnOf(s.at), o)
    ensures KeyedNext(g, s, t) && TurnOf(t.at) == o
  {
    hide Reached, AttachedIffVisited, VisitedFrom;
    if TakesNext(g, TurnOf(s.at), o) {
      t := Keyed(Pop(g, s.at), s.rows);
      assert KeyedPop(g, s, t);
    } else {
      var p :| p in s.at.todo && o == Visiting(TurnOf(s.at), p);
      VisitTidy(g, s, p);
      TodoFacts(g, s.at, p);
      t := KeyedVisited(s, p);
      assert KeyedVisit(s, t, p);
    }
  }

  /** Every finished run of the code is exact. */
  ghost predicate AllExact(g: Graph)
    requires RETURN in g
  {
    forall tr: seq<Keyed> | IsKeyedRun(g, tr) && Finished(tr[|tr| - 1].at) :: ExactTree(g, tr[|tr| - 1].at.forest)
  }

  /** In every order in which the edges can be visited all visits are harmless. */
  ghost predicate AllGentle(g: Graph)
    requires RETURN in g
  {
    forall os | IsOrder(g, os) && Ended(os[|os| - 1]) :: Gentle(g, os, |os| - 1)
  }

  /** All runs of the code over a graph are exact if and only if in every order in which its edges can be visited no
      visit takes a post-dominator from a block that the visited one does not post-dominate. */
  lemma AllExactIff(g: Graph)
    requires WellFormed(g) && AtMost(g, 2)
    ensures AllExact(g) <==> AllGentle(g)
  {
    hide AtMost, Gentle, ExactTree, KeyedNext, Follow;
    if AllGentle(g) {
      forall tr: seq<Keyed> | IsKeyedRun(g, tr) && Finished(tr[|tr| - 1].at)
        ensures ExactTree(g, tr[|tr| - 1].at.forest)
      {
        RunHasOrder(g, tr);
        ExactIffGentle(g, tr);
      }
    }
    if AllExact(g) {
      forall os | IsOrder(g, os) && Ended(os[|os| - 1]) ensures Gentle(g, os, |os| - 1) {
        var tr := OrderHasRun(g, os, |os| - 1);
        assert OrderOf(tr) == os;
        ExactIffGentle(g, tr);
      }
    }
  }
}
