/** A routine whose predecessor graph is the one on which the single pass is not exact.

      10: an instruction that falls through
      11: if ... goto 40
      20: if ... goto 40
      30: goto 50
      40: return
      50: return */
module LimitRoutine {
  import opened PostDominance
  import opened PostDominancePass
  import opened DescendantRows
  import opened KeyedPass
  import opened PostDominanceLimits
  import opened Routine
  import opened BlockScan

  const BEYOND: Addr := 60

  function Plain(addr: Addr, next: Addr): Ins {
    Ins(addr, false, false, false, false, 0, true, next)
  }

  function IfGoto(addr: Addr, target: Addr, next: Addr): Ins {
    Ins(addr, true, false, false, true, target, true, next)
  }

  function Goto(addr: Addr, target: Addr): Ins {
    Ins(addr, true, false, false, true, target, false, 0)
  }

  function Return(addr: Addr): Ins {
    Ins(addr, false, false, true, false, 0, false, 0)
  }

  function Code(): seq<Ins> {
    [Plain(10, 11), IfGoto(11, 40, 20), IfGoto(20, 40, 30), Goto(30, 50), Return(40), Return(50)]
  }

  function CodeLayout(): Layout {
    Layout([10, 11, 20, 30, 40, 50], [false, false, true, true, true, true],
           [false, false, true, true, true, true, true], [true, false, true, true, true, true],
           [10, 10, 20, 30, 40, 50])
  }

  lemma CodePlausible()
    ensures Plausible(Code(), BEYOND)
  {
  }

  lemma TargetsInCode(a: Addr)
    ensures Targeted(Code(), a) <==> a in {20, 30, 40, 50}
  {
    var code := Code();
    assert TargetsOf(code[1]) == {40, 20};
    assert TargetsOf(code[2]) == {40, 30};
    assert TargetsOf(code[3]) == {50};
  }

  lemma BranchesInCode()
    ensures var code := Code();
            && BranchSet(code[1]) == {40, 20} && BranchSet(code[2]) == {40, 30} && BranchSet(code[3]) == {50}
            && BranchSet(code[4]) == {2} && BranchSet(code[5]) == {2}
  {
  }

  lemma LayoutValid()
    ensures CodeLayout().Valid()
  {
  }

  lemma CodeIsLayout()
    ensures IsLayout(Code(), CodeLayout())
  {
    hide Layout.Valid, Targeted, BranchSet;
    LayoutValid();
    BranchesInCode();
    forall i | 0 <= i < 6 ensures CodeLayout().targeted[i] <==> Targeted(Code(), Code()[i].addr) {
      TargetsInCode(Code()[i].addr);
    }
  }

  /** The branches at the end of blocks, and where they lead. */
  lemma BranchesLead()
    ensures BranchTargets({40, 20}, 10, 20) == {20, 40} && BranchTargets({40, 30}, 20, 30) == {30, 40}
    ensures BranchTargets({50}, 30, 40) == {50} && BranchTargets({2}, 40, 50) == {2} == BranchTargets({2}, 50, 60)
  {
    assert {40, 20} - {20} == {40};
    assert {40, 30} - {30} == {40};
  }

  ghost function CodeEdges(): Edges {
    {(10, 20), (10, 40), (20, 30), (20, 40), (30, 50), (40, 2), (50, 2)}
  }

  lemma EdgesOfCode()
    ensures CodeLayout().Valid() && EdgesUpTo(Code(), CodeLayout(), 6, BEYOND) == CodeEdges()
  {
    hide BranchTargets, BranchSet, Layout.Valid;
    LayoutValid();
    var code, L := Code(), CodeLayout();
    BranchesInCode();
    BranchesLead();
    assert EdgesUpTo(code, L, 1, BEYOND) == {};
    assert EdgesUpTo(code, L, 2, BEYOND) == {(10, 20), (10, 40)};
    assert EdgesUpTo(code, L, 3, BEYOND) == {(10, 20), (10, 40), (20, 30), (20, 40)};
    assert EdgesUpTo(code, L, 4, BEYOND) == {(10, 20), (10, 40), (20, 30), (20, 40), (30, 50)};
    assert EdgesUpTo(code, L, 5, BEYOND) == {(10, 20), (10, 40), (20, 30), (20, 40), (30, 50), (40, 2)};
  }

  lemma StartsOfCode()
    ensures Starts(CodeLayout()) == {2, 10, 20, 30, 40, 50}
  {
    var L := CodeLayout();
    assert L.start[1] == 10 && L.start[2] == 20 && L.start[3] == 30 && L.start[4] == 40 && L.start[5] == 50;
  }

  lemma CodeGraph()
    ensures PredecessorGraph(CodeLayout(), CodeEdges()) == MissGraph()
  {
    StartsOfCode();
    var g := PredecessorGraph(CodeLayout(), CodeEdges());
    assert (10, 20) in CodeEdges() && (10, 40) in CodeEdges() && (20, 30) in CodeEdges() && (20, 40) in CodeEdges();
    assert (30, 50) in CodeEdges() && (40, 2) in CodeEdges() && (50, 2) in CodeEdges();
    assert g[2] == {40, 50};
    assert g[10] == {};
    assert g[20] == {10};
    assert g[30] == {20};
    assert g[40] == {10, 20};
    assert g[50] == {30};
  }

  lemma GraphOfCode()
    ensures PredecessorGraph(CodeLayout(), Scan(Code(), BEYOND).edges) == MissGraph()
  {
    hide CodeLayout, MissGraph, PredecessorGraph, Scan, IsLayout, Plausible, EdgesUpTo, CodeEdges;
    CodePlausible();
    CodeIsLayout();
    ScanEnds(Code(), BEYOND, CodeLayout());
    EdgesOfCode();
    CodeGraph();
  }

  /** The three passes can receive a routine after whose post-dominance pass the block at 40 is above the block
      at 10 without post-dominating it, and without counting it in its map. */
  lemma RoutineIsNotExact() returns (code: seq<Ins>, beyond: Addr, L: Layout, tr: seq<Keyed>, a: Addr, d: Addr)
    ensures Plausible(code, beyond) && IsLayout(code, L)
    ensures var g := PredecessorGraph(L, Scan(code, beyond).edges);
            && WellFormed(g) && IsKeyedRun(g, tr) && |tr| > 0 && Finished(tr[|tr| - 1].at)
            && !PostDominates(g, d, a)
    ensures var s := tr[|tr| - 1];
            s.at.forest.Valid() && s.at.forest.Above(d, a) && d in s.rows && !Counts(s.rows[d], a)
  {
    hide CodeLayout, MissGraph, PredecessorGraph, Scan, IsLayout, Plausible, PostDominates, IsKeyedRun, WellFormed;
    code, beyond, L := Code(), BEYOND, CodeLayout();
    CodePlausible();
    CodeIsLayout();
    GraphOfCode();
    tr, a, d := MissRunFails();
  }
}
