/** A graph that is not decided, and on which every run is exact all the same.

    Block 16 leads to 14 and 15, 14 to 10, and 10 to 11 and 15; 11 leads to 13, and 13 and 15 return.  15 lies on
    all shortest paths of 14 and 15, but 16 need not pass it.  It is put below 15 first; but when 14 is processed,
    10 has been moved away from 15, and so has 14, which is below it. */
module UndecidedExact {
  import opened PostDominance
  import opened PostDominancePass
  import opened KeyedPass
  import opened PassExactness

  ghost function LateGraph(): Graph {
    map[2 := {13, 15}, 10 := {14}, 11 := {10}, 13 := {11}, 14 := {16}, 15 := {10, 16}, 16 := {}]
  }

  lemma LateWellFormed()
    ensures WellFormed(LateGraph())
  {
  }

  lemma LateAtMostTwo()
    ensures AtMost(LateGraph(), 2)
  {
    var g := LateGraph();
    forall p ensures |Succs(g, p)| <= 2 {
      var few := if p == 10 then {11, 15} else if p == 16 then {14, 15} else if p == 11 then {13}
                 else if p == 14 then {10} else {2};
      assert Succs(g, p) <= few;
      SubsetSize(Succs(g, p), few);
    }
  }

  // ---------------------------------------------------------------- its paths

  lemma EndPath(s: seq<Addr>)
    requires IsPath(LateGraph(), s, 2, RETURN)
    ensures s == [2]
  {
  }

  lemma OneEdgePath(s: seq<Addr>, a: Addr)
    requires a in {13, 15} && IsPath(LateGraph(), s, a, RETURN)
    ensures s == [a, 2]
  {
    EndPath(s[1..]);
  }

  lemma PathOfEleven(s: seq<Addr>)
    requires IsPath(LateGraph(), s, 11, RETURN)
    ensures s == [11, 13, 2]
  {
    OneEdgePath(s[1..], 13);
  }

  lemma PathOfTen(s: seq<Addr>)
    requires IsPath(LateGraph(), s, 10, RETURN)
    ensures s == [10, 15, 2] || s == [10, 11, 13, 2]
  {
    if s[1] == 15 {
      OneEdgePath(s[1..], 15);
    } else {
      PathOfEleven(s[1..]);
    }
  }

  lemma PathOfFourteen(s: seq<Addr>)
    requires IsPath(LateGraph(), s, 14, RETURN)
    ensures s == [14, 10, 15, 2] || s == [14, 10, 11, 13, 2]
  {
    PathOfTen(s[1..]);
  }

  lemma PathOfSixteen(s: seq<Addr>)
    requires IsPath(LateGraph(), s, 16, RETURN)
    ensures s == [16, 15, 2] || s == [16, 14, 10, 15, 2] || s == [16, 14, 10, 11, 13, 2]
  {
    if s[1] == 15 {
      OneEdgePath(s[1..], 15);
    } else {
      PathOfFourteen(s[1..]);
    }
  }

  lemma Longer(s: seq<Addr>, a: Addr, b: Addr)
    requires IsPath(LateGraph(), s, b, RETURN) && Edge(LateGraph(), a, b)
    ensures IsPath(LateGraph(), [a] + s, a, RETURN)
  {
    assert ([a] + s)[1..] == s;
  }

  lemma LateEdges()
    ensures var g := LateGraph();
            && IsPath(g, [2], 2, RETURN) && Edge(g, 15, 2) && Edge(g, 13, 2) && Edge(g, 11, 13) && Edge(g, 10, 15)
            && Edge(g, 16, 15) && Edge(g, 14, 10) && Edge(g, 10, 11) && Edge(g, 16, 14)
  {
  }

  lemma LatePaths()
    ensures var g := LateGraph();
            && IsPath(g, [15, 2], 15, RETURN) && IsPath(g, [13, 2], 13, RETURN)
            && IsPath(g, [11, 13, 2], 11, RETURN) && IsPath(g, [10, 15, 2], 10, RETURN)
            && IsPath(g, [14, 10, 15, 2], 14, RETURN) && IsPath(g, [16, 15, 2], 16, RETURN)
            && IsPath(g, [10, 11, 13, 2], 10, RETURN) && IsPath(g, [14, 10, 11, 13, 2], 14, RETURN)
            && IsPath(g, [16, 14, 10, 11, 13, 2], 16, RETURN)
  {
    hide LateGraph, IsPath, Edge;
    LateEdges();
    Longer([2], 15, 2);
    Longer([2], 13, 2);
    assert [15, 2] == [15] + [2] && [13, 2] == [13] + [2];
    Longer([13, 2], 11, 13);
    assert [11, 13, 2] == [11] + [13, 2];
    Longer([15, 2], 10, 15);
    assert [10, 15, 2] == [10] + [15, 2];
    Longer([15, 2], 16, 15);
    assert [16, 15, 2] == [16] + [15, 2];
    Longer([10, 15, 2], 14, 10);
    assert [14, 10, 15, 2] == [14] + [10, 15, 2];
    Longer([11, 13, 2], 10, 11);
    assert [10, 11, 13, 2] == [10] + [11, 13, 2];
    Longer([10, 11, 13, 2], 14, 10);
    assert [14, 10, 11, 13, 2] == [14] + [10, 11, 13, 2];
    Longer([14, 10, 11, 13, 2], 16, 14);
    assert [16, 14, 10, 11, 13, 2] == [16] + [14, 10, 11, 13, 2];
  }

  /** Each block has one shortest path. */
  lemma LateShortestPaths()
    ensures var g := LateGraph();
            && (forall s :: Shortest(g, s, 2) <==> s == [2])
            && (forall s :: Shortest(g, s, 15) <==> s == [15, 2])
            && (forall s :: Shortest(g, s, 13) <==> s == [13, 2])
            && (forall s :: Shortest(g, s, 11) <==> s == [11, 13, 2])
            && (forall s :: Shortest(g, s, 10) <==> s == [10, 15, 2])
            && (forall s :: Shortest(g, s, 14) <==> s == [14, 10, 15, 2])
  {
    var g := LateGraph();
    LatePaths();
    assert IsPath(g, [2], 2, RETURN);
    hide LateGraph, IsPath;
    forall s | IsPath(g, s, 2, RETURN) ensures s == [2] { EndPath(s); }
    forall s | IsPath(g, s, 15, RETURN) ensures s == [15, 2] { OneEdgePath(s, 15); }
    forall s | IsPath(g, s, 13, RETURN) ensures s == [13, 2] { OneEdgePath(s, 13); }
    forall s | IsPath(g, s, 11, RETURN) ensures s == [11, 13, 2] { PathOfEleven(s); }
    forall s | IsPath(g, s, 10, RETURN) ensures s == [10, 15, 2] || s == [10, 11, 13, 2] { PathOfTen(s); }
    forall s | IsPath(g, s, 14, RETURN) ensures s == [14, 10, 15, 2] || s == [14, 10, 11, 13, 2] {
      PathOfFourteen(s);
    }
  }

  /** What lies on all shortest paths. */
  lemma LateShortest(d: Addr)
    ensures var g := LateGraph();
            && (OnShortest(g, d, 2) <==> d == 2) && (OnShortest(g, d, 15) <==> d in {15, 2})
            && (OnShortest(g, d, 13) <==> d in {13, 2}) && (OnShortest(g, d, 11) <==> d in {11, 13, 2})
            && (OnShortest(g, d, 10) <==> d in {10, 15, 2}) && (OnShortest(g, d, 14) <==> d in {14, 10, 15, 2})
  {
    hide LateGraph, OnShortest, Shortest;
    var g := LateGraph();
    LateShortestPaths();
    OneShortest(g, 2, [2], d);
    OneShortest(g, 15, [15, 2], d);
    OneShortest(g, 13, [13, 2], d);
    OneShortest(g, 11, [11, 13, 2], d);
    OneShortest(g, 10, [10, 15, 2], d);
    OneShortest(g, 14, [14, 10, 15, 2], d);
  }

  lemma OneShortest(g: Graph, a: Addr, s: seq<Addr>, d: Addr)
    requires forall t :: Shortest(g, t, a) <==> t == s
    ensures OnShortest(g, d, a) <==> d in s
  {
  }

  lemma LateSuccs(y: Addr)
    ensures var g := LateGraph();
            && (y == 16 ==> Succs(g, y) == {14, 15}) && (y == 14 ==> Succs(g, y) == {10})
            && (y == 10 ==> Succs(g, y) == {11, 15}) && (y == 11 ==> Succs(g, y) == {13})
            && (y in {13, 15} ==> Succs(g, y) == {2})
  {
    var g := LateGraph();
    LateReaches();
    hide Reach;
  }

  lemma LateReaches()
    ensures forall a | a in {2, 10, 11, 13, 14, 15} :: Reach(LateGraph(), a, RETURN, {})
  {
    hide LateGraph, Reach, IsPath;
    var g := LateGraph();
    LatePaths();
    ReachSelf(g, RETURN, {});
    PathReaches(g, [15, 2], 15);
    PathReaches(g, [13, 2], 13);
    PathReaches(g, [11, 13, 2], 11);
    PathReaches(g, [10, 15, 2], 10);
    PathReaches(g, [14, 10, 15, 2], 14);
  }

  lemma DominatorsOfSixteen(z: Addr)
    requires z != 16 && PostDominates(LateGraph(), z, 16)
    ensures z == 2
  {
    LatePaths();
    hide LateGraph, IsPath;
    assert z in [16, 15, 2] && z in [16, 14, 10, 11, 13, 2];
  }

  lemma FifteenAvoided()
    ensures !PostDominates(LateGraph(), 15, 16)
  {
    LatePaths();
    assert 15 !in [16, 14, 10, 11, 13, 2];
  }

  /** 15 lies on all shortest paths of 14 and 15, within all post-dominators of 16, and does not post-dominate 16. */
  lemma LateIsUndecided()
    ensures !Decided(LateGraph())
  {
    hide LateGraph, PostDominates, OnShortest, Succs;
    var g := LateGraph();
    LateSuccs(16);
    LateShortest(15);
    forall z | z != 16 && PostDominates(g, z, 16) ensures PostDominates(g, z, 15) {
      DominatorsOfSixteen(z);
      OnAllPaths(15, 2);
    }
    FifteenAvoided();
    assert Shared(g, 15, 16) && Within(g, 15, 16);
  }

  // ---------------------------------------------------------------- its runs

  /** When 14 has been taken, 10 has been visited from 11; and when 16 has been visited from 14, 15 is not above it. */
  ghost predicate LateInv(s: Config)
    requires s.forest.Valid()
  {
    var g := LateGraph();
    && (14 in s.done ==> 11 in VisitedFrom(g, s, 10) && 15 in s.done)
    && (14 in VisitedFrom(g, s, 16) ==> !s.forest.Above(15, 16))
  }

  /** While 14 is processed, 15 is not above 10. */
  lemma FifteenApart(s: Config)
    requires OnShortestPaths(LateGraph(), s) && s.forest.Valid() && LateInv(s)
    requires 14 in s.done && 10 in s.forest.rank && 15 in s.forest.rank
    ensures !s.forest.Above(15, 10) && 10 !in s.forest.Up(15)
  {
    hide Forest.Up, Forest.Above, OnShortest, LateGraph, ByDistance;
    LateShortest(10);
    LateShortest(15);
  }

  /** While 14 is processed, 15 is not above it. */
  lemma NotAboveFourteen(s: Config)
    requires OnShortestPaths(LateGraph(), s) && s.forest.Valid() && LateInv(s)
    requires 14 in s.done && 14 in s.forest.rank && 15 in s.forest.rank
    ensures 15 !in s.forest.Up(14)
  {
    hide Forest.Up, LateGraph, OnShortestPaths, LateInv, PostDominates;
    var f := s.forest;
    TenAboveFourteen(s);
    f.UpStep(14);
    f.UpTransitive(14, 10);
    f.UpStep(10);
    FifteenApart(s);
    if 15 in f.Up(14) {
      f.UpChain(14, 15, 10);
    }
  }

  lemma TenAboveFourteen(s: Config)
    requires OnShortestPaths(LateGraph(), s) && s.forest.Valid() && 14 in s.forest.rank
    ensures s.forest.Above(10, 14)
  {
    forall path | IsPath(LateGraph(), path, 14, RETURN) ensures 10 in path {
      PathOfFourteen(path);
    }
    SoundAncestors(LateGraph(), s.forest, 14, 10);
  }

  lemma LateVisit(s: Config, p: Addr)
    requires OnShortestPaths(LateGraph(), s) && s.forest.Valid() && LateInv(s) && p in s.todo
    ensures Visit(s, p).forest.Valid() && LateInv(Visit(s, p))
  {
    var g, t := LateGraph(), Visit(s, p);
    LateWellFormed();
    hide LateGraph, Forest.Up, Forest.AddPred, OnShortest, Shortest;
    VisitKeepsBookkeeping(g, s, p);
    VisitMarks(g, s, t, p, 10);
    VisitMarks(g, s, t, p, 16);
    if 14 in VisitedFrom(g, s, 16) {
      VisitedAttached(g, s, 16, 14);
      VisitShrinks(g, s, p, 16);
    } else if 14 in VisitedFrom(g, t, 16) {
      NotAboveFourteen(s);
      VisitedBelow(g, s, 16, 15);
    }
  }

  lemma LatePop(s: Config)
    requires OnShortestPaths(LateGraph(), s) && s.forest.Valid() && LateInv(s) && s.todo == {} && s.queue != []
    ensures s.queue[0] in LateGraph() && LateInv(Pop(LateGraph(), s))
  {
    var g := LateGraph();
    LateWellFormed();
    PopKeepsBookkeeping(g, s);
    NextFacts(g, s);
    PopMarks(g, s, Pop(g, s), 10);
    PopMarks(g, s, Pop(g, s), 16);
    if s.queue[0] == 14 {
      LatePaths();
      var path :| IsPath(g, path, 14, RETURN) && |path| == s.forest.rank[14] + 1;
      PathOfFourteen(path);
      NearerDone(g, s, [11, 13, 2], 11);
      NearerDone(g, s, [15, 2], 15);
      TodoDone(g, s, 10, 11);
    }
  }

  lemma LateStart()
    ensures WellFormed(LateGraph()) && Start(LateGraph()).forest.Valid() && LateInv(Start(LateGraph()))
  {
    LateWellFormed();
    StartInv(LateGraph());
  }

  lemma TreeOf(s: Config)
    requires OnShortestPaths(LateGraph(), s)
    ensures s.forest.Valid()
  {
  }

  lemma {:induction false} LateRun(tr: seq<Config>, i: nat)
    requires WellFormed(LateGraph()) && IsRun(LateGraph(), tr) && i < |tr|
    ensures tr[i].forest.Valid() && LateInv(tr[i])
  {
    hide LateInv, OnShortestPaths, LateGraph, Start, WellFormed;
    var g := LateGraph();
    LateWellFormed();
    RunOnShortestPaths(g, tr, i);
    TreeOf(tr[i]);
    if i == 0 {
      LateStart();
    } else {
      LateRun(tr, i - 1);
      RunOnShortestPaths(g, tr, i - 1);
      assert Next(g, tr[i - 1], tr[i]);
      if PopStep(g, tr[i - 1], tr[i]) {
        LatePop(tr[i - 1]);
      } else {
        var p :| VisitStep(tr[i - 1], tr[i], p);
        LateVisit(tr[i - 1], p);
      }
    }
  }

  /** As far as the ancestors go the graph is decided. */
  lemma LateDecidedIn(s: Config)
    requires WellFormed(LateGraph()) && Bookkeeping(LateGraph(), s) && !s.forest.Above(15, 16)
    ensures DecidedIn(LateGraph(), s.forest)
  {
    var g, f := LateGraph(), s.forest;
    forall y, d | f.Above(d, y) && Shared(g, d, y) && Within(g, d, y) ensures PostDominates(g, d, y) {
      f.UpStep(y);
      assert y in g && y != RETURN;
      LateShared(y, d);
    }
  }

  /** 14 must pass 10, and 15 need not. */
  lemma NotWithin()
    ensures !Within(LateGraph(), 15, 14)
  {
    forall path | IsPath(LateGraph(), path, 14, RETURN) ensures 10 in path {
      PathOfFourteen(path);
    }
    LatePaths();
    assert PostDominates(LateGraph(), 10, 14) && 10 !in [15, 2];
  }

  lemma LateShared(y: Addr, d: Addr)
    requires y in LateGraph() && y != RETURN && d != y && Shared(LateGraph(), d, y) && Within(LateGraph(), d, y)
    ensures PostDominates(LateGraph(), d, y) || (y == 16 && d == 15)
  {
    hide PostDominates, OnShortest, Within, Succs;
    LateSuccs(y);
    LateShortest(d);
    NotWithin();
    if !(y == 16 && d == 15) {
      OnAllPaths(y, d);
    }
  }

  lemma OnAllPaths(y: Addr, d: Addr)
    requires (y in {10, 13, 14, 15, 16} && d == 2) || (y == 11 && d in {13, 2}) || (y == 14 && d == 10)
    ensures PostDominates(LateGraph(), d, y)
  {
    var g := LateGraph();
    hide LateGraph, IsPath;
    forall path | IsPath(g, path, y, RETURN) ensures d in path {
      if y in {13, 15} {
        OneEdgePath(path, y);
      } else if y == 11 {
        PathOfEleven(path);
      } else if y == 10 {
        PathOfTen(path);
      } else if y == 14 {
        PathOfFourteen(path);
      } else {
        PathOfSixteen(path);
      }
    }
  }

  /** Not being decided does not make a graph inexact: every finished run of the code on this one is exact. */
  lemma UndecidedYetExact(tr: seq<Keyed>)
    requires WellFormed(LateGraph()) && IsKeyedRun(LateGraph(), tr) && Finished(tr[|tr| - 1].at)
    ensures !Decided(LateGraph()) && AtMost(LateGraph(), 2) && ExactTree(LateGraph(), tr[|tr| - 1].at.forest)
  {
    hide LateGraph, WellFormed, Decided, DecidedIn, ExactTree, AtMost, LateInv, Bookkeeping, Succs, KeyedNext, Next;
    var g, s := LateGraph(), tr[|tr| - 1].at;
    LateIsUndecided();
    LateAtMostTwo();
    KeyedIsRun(g, tr);
    KeyedTidy(g, tr, |tr| - 1);
    LateRun(PassOf(tr), |tr| - 1);
    NeverAbove(s);
    LateDecidedIn(s);
    DecidedRunIsExact(g, PassOf(tr));
  }

  lemma NeverAbove(s: Config)
    requires WellFormed(LateGraph()) && Bookkeeping(LateGraph(), s) && Finished(s)
    requires s.forest.Valid() && LateInv(s)
    ensures !s.forest.Above(15, 16)
  {
    LateSuccs(16);
    SuccessorVisited(LateGraph(), s, 16, 14);
  }
}
