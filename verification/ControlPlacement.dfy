/** Where the control-flow instrumentation of a routine pushes and pops control taint. */
module ControlPlacement {
  import opened PostDominance
  import opened PostDominancePass
  import opened KeyedPass
  import opened PassExactness
  import opened BasicBlocks
  import opened PostDominanceTree
  import opened Routine
  import opened BlockScan
  import opened BlockSuccessors
  import opened AddressMaps
  import opened GraphBlocks
  import opened GraphHandover
  import opened RoutineGraphs

  /** Instruction i is a conditional branch, and q is the parent of its block. */
  ghost predicate Controls(g: RoutineGraph, conditional: seq<bool>, i: nat, q: Addr)
    requires |g.run| > 0 && i < |conditional| && i < |g.layout.start|
    reads g`run
  {
    && conditional[i] && g.layout.start[i] in g.Tree().parent
    && g.Tree().parent[g.layout.start[i]] == q
  }

  /** The block of an instruction points to the parent of its first address. */
  lemma BlockPointsToParent(g: RoutineGraph, i: nat)
    requires g.Built() && i < |g.code|
    ensures |g.run| > 0 && i < |g.layout.start| && g.code[i].addr in g.addressMap
    ensures var b, f, s := g.addressMap[g.code[i].addr], g.Tree(), g.layout.start[i];
            && (b.PostDominator != null <==> s in f.parent)
            && (s in f.parent ==> b.PostDominator.startingAddress == f.parent[s])
  {
    g.MappedToStart(i);
    CompletedFacts(PassBlocks(g.heads, g.layout), g.Predecessors(), g.run);
    var G, f, s := PassBlocks(g.heads, g.layout), g.Tree(), g.layout.start[i];
    assert Pointers(G, f) && G[s] == g.addressMap[g.code[i].addr];
    if s in f.parent {
      assert f.parent[s] in G && G[f.parent[s]].startingAddress == f.parent[s];
    }
  }

  /** One of the first n instructions is a conditional branch at a, and q is the parent of its block. */
  ghost predicate PopsAt(g: RoutineGraph, conditional: seq<bool>, n: nat, q: Addr, a: Addr)
    requires |g.run| > 0 && n <= |conditional| == |g.code| == |g.layout.start|
    reads g`run
  {
    exists i: nat :: i < n && g.code[i].addr == a && Controls(g, conditional, i, q)
  }

  lemma PopsStep(g: RoutineGraph, conditional: seq<bool>, n: nat, q: Addr, a: Addr)
    requires |g.run| > 0 && n < |conditional| == |g.code| == |g.layout.start|
    ensures PopsAt(g, conditional, n + 1, q, a) <==>
            PopsAt(g, conditional, n, q, a) || (g.code[n].addr == a && Controls(g, conditional, n, q))
  {
    hide Controls;
  }

  /** Whether and where instruction n is popped. */
  lemma ControlsIff(g: RoutineGraph, conditional: seq<bool>, n: nat)
    requires g.Built() && n < |conditional| == |g.code|
    ensures |g.run| > 0 && n < |g.layout.start| && g.code[n].addr in g.addressMap
    ensures var parent := g.addressMap[g.code[n].addr].PostDominator;
            forall q :: Controls(g, conditional, n, q) <==>
                        conditional[n] && parent != null && parent.startingAddress == q
  {
    BlockPointsToParent(g, n);
    hide RoutineGraph.Built;
    var parent := g.addressMap[g.code[n].addr].PostDominator;
    if conditional[n] && parent != null {
      assert Controls(g, conditional, n, parent.startingAddress);
    }
  }

  /** The branches among the first n instructions are collected under the parents of their blocks. */
  ghost predicate Collected(g: RoutineGraph, conditional: seq<bool>, n: nat, controls: AddressSets)
    requires |g.run| > 0 && n <= |conditional| == |g.code| == |g.layout.start|
    reads g`run
  {
    forall q, a :: a in At(controls, q) <==> PopsAt(g, conditional, n, q, a)
  }

  lemma CollectNone(g: RoutineGraph, conditional: seq<bool>, n: nat, controls: AddressSets)
    requires |g.run| > 0 && n < |conditional| == |g.code| == |g.layout.start|
    requires Collected(g, conditional, n, controls) && forall q :: !Controls(g, conditional, n, q)
    ensures Collected(g, conditional, n + 1, controls)
  {
    hide Controls, PopsAt;
    forall q, a ensures a in At(controls, q) <==> PopsAt(g, conditional, n + 1, q, a) {
      PopsStep(g, conditional, n, q, a);
    }
  }

  lemma CollectOne(g: RoutineGraph, conditional: seq<bool>, n: nat, controls: AddressSets, parent: Addr)
    requires |g.run| > 0 && n < |conditional| == |g.code| == |g.layout.start|
    requires Collected(g, conditional, n, controls) && forall q :: Controls(g, conditional, n, q) <==> q == parent
    ensures Collected(g, conditional, n + 1, Insert(controls, parent, g.code[n].addr))
  {
    hide Controls, PopsAt;
    var controls' := Insert(controls, parent, g.code[n].addr);
    forall q, a ensures a in At(controls', q) <==> PopsAt(g, conditional, n + 1, q, a) {
      PopsStep(g, conditional, n, q, a);
    }
  }

  /** The address is collected under some parent. */
  ghost predicate UnderSome(controls: AddressSets, a: Addr) {
    exists q :: a in At(controls, q)
  }

  lemma PushOne(controls: AddressSets, parent: Addr, x: Addr, a: Addr)
    ensures UnderSome(Insert(controls, parent, x), a) <==> a == x || UnderSome(controls, a)
  {
    var controls' := Insert(controls, parent, x);
    assert x in At(controls', parent);
    if q :| a in At(controls, q) {
      assert a in At(controls', q);
    }
  }

  lemma BuiltSizes(g: RoutineGraph)
    requires g.Built()
    ensures |g.run| > 0 && |g.layout.start| == |g.code|
  {
    hide Scan, Wired, Starts, PredecessorGraph, PassBlocks, Carried;
    CompletedFacts(PassBlocks(g.heads, g.layout), g.Predecessors(), g.run);
  }

  lemma NothingCollected(g: RoutineGraph, conditional: seq<bool>)
    requires |g.run| > 0 && |conditional| == |g.code| == |g.layout.start|
    ensures Collected(g, conditional, 0, map[]) && forall a :: !UnderSome(map[], a)
  {
  }

  /** Pushes control taint at conditional branches, and collects for every block that is a parent of such a
      branch's block the branches to pop at its start. */
  method PlaceControls(g: RoutineGraph, conditional: seq<bool>) returns (pushes: set<Addr>, controls: AddressSets)
    requires g.Built() && |conditional| == |g.code|
    ensures |g.run| > 0 && |g.layout.start| == |g.code|
    ensures Collected(g, conditional, |g.code|, controls)
    ensures forall a :: a in pushes <==> UnderSome(controls, a)
  {
    hide Collected, UnderSome, RoutineGraph.Built;
    BuiltSizes(g);
    pushes, controls := {}, map[];
    NothingCollected(g, conditional);
    for i := 0 to |g.code|
      invariant Collected(g, conditional, i, controls)
      invariant forall a :: a in pushes <==> UnderSome(controls, a)
    {
      pushes, controls := PlaceControl(g, conditional, i, pushes, controls);
    }
  }

  method PlaceControl(g: RoutineGraph, conditional: seq<bool>, i: nat, pushes: set<Addr>, controls: AddressSets)
    returns (pushes': set<Addr>, controls': AddressSets)
    requires g.Built() && i < |conditional| == |g.code| == |g.layout.start| && |g.run| > 0
    requires Collected(g, conditional, i, controls) && forall a :: a in pushes <==> UnderSome(controls, a)
    ensures Collected(g, conditional, i + 1, controls') && forall a :: a in pushes' <==> UnderSome(controls', a)
  {
    ControlsIff(g, conditional, i);
    hide RoutineGraph.Built, Controls, Collected, UnderSome, Insert;
    pushes', controls' := pushes, controls;
    if conditional[i] {
      var block := g.addressMap[g.code[i].addr];
      var ipdomBlock := block.PostDominator;
      if ipdomBlock != null {
        CollectOne(g, conditional, i, controls, ipdomBlock.startingAddress);
        controls' := Insert(controls, ipdomBlock.startingAddress, g.code[i].addr);
        pushes' := pushes + {g.code[i].addr};
        forall a ensures a in pushes' <==> UnderSome(controls', a) {
          PushOne(controls, ipdomBlock.startingAddress, g.code[i].addr, a);
        }
        return;
      }
    }
    CollectNone(g, conditional, i, controls);
  }

  /** A branch is popped at q exactly if it is conditional and its block points to the block that starts at q. */
  lemma PlacedIff(g: RoutineGraph, conditional: seq<bool>, controls: AddressSets, q: Addr, a: Addr)
    requires g.Built() && |conditional| == |g.code| && |g.run| > 0 && |g.layout.start| == |g.code|
    requires Collected(g, conditional, |g.code|, controls)
    ensures forall i | 0 <= i < |g.code| :: g.code[i].addr in g.addressMap
    ensures a in At(controls, q) <==>
            exists i :: 0 <= i < |g.code| && conditional[i] && g.code[i].addr == a &&
                        g.addressMap[g.code[i].addr].PostDominator != null &&
                        g.addressMap[g.code[i].addr].PostDominator.startingAddress == q
  {
    hide RoutineGraph.Built, Controls;
    forall i | 0 <= i < |g.code| ensures g.code[i].addr in g.addressMap
      ensures Controls(g, conditional, i, q) <==>
              conditional[i] && g.addressMap[g.code[i].addr].PostDominator != null &&
              g.addressMap[g.code[i].addr].PostDominator.startingAddress == q
    {
      ControlsIff(g, conditional, i);
    }
  }

  /** A pop is only ever inserted before an instruction.  The return block has none: a branch whose block's
      parent is the return block is pushed but never popped, and every other pushed branch has its pop. */
  lemma PopHasInstructionIff(g: RoutineGraph, conditional: seq<bool>, i: nat, q: Addr)
    requires g.Built() && |conditional| == |g.code| && i < |g.code| && |g.run| > 0 && i < |g.layout.start|
    requires Controls(g, conditional, i, q)
    ensures (exists j :: 0 <= j < |g.code| && g.code[j].addr == q) <==> q != RETURN
  {
    ParentStarts(g, conditional, i, q);
    assert IsLayout(g.code, g.layout) && Plausible(g.code, g.beyond);
    hide RoutineGraph.Built;
    StartIsInstruction(g.code, g.beyond, g.layout, q);
  }

  lemma StartIsInstruction(code: seq<Ins>, beyond: Addr, L: Layout, q: Addr)
    requires Plausible(code, beyond) && IsLayout(code, L) && q in Starts(L)
    ensures (exists j :: 0 <= j < |code| && code[j].addr == q) <==> q != RETURN
  {
    if q != RETURN {
      var k :| 0 <= k < |L.start| && L.start[k] == q;
      var l := L.StartAt(k);
      assert code[l].addr == q;
    }
  }

  lemma ParentStarts(g: RoutineGraph, conditional: seq<bool>, i: nat, q: Addr)
    requires g.Built() && |g.run| > 0 && i < |conditional| && i < |g.layout.start|
    requires Controls(g, conditional, i, q)
    ensures q in Starts(g.layout)
  {
    CompletedFacts(PassBlocks(g.heads, g.layout), g.Predecessors(), g.run);
    hide Starts, RoutineGraph.Built;
    assert q in g.Tree().rank;
    assert q in PassBlocks(g.heads, g.layout);
  }

  /** If one more visit of every edge would change no parent, then control cannot get from a pushed branch's
      block to the return block past the place where the branch is popped. */
  lemma PopOnEveryPath(g: RoutineGraph, conditional: seq<bool>, i: nat, q: Addr)
    requires g.Built() && |conditional| == |g.code| && i < |g.code| && |g.run| > 0 && i < |g.layout.start|
    requires Controls(g, conditional, i, q)
    requires g.Tree().Valid() && Stable(g.Predecessors(), g.Tree())
    ensures PostDominates(g.Predecessors(), q, g.layout.start[i])
  {
    hide Stable, PostDominates, Scan, AtMost;
    var f, s := g.Tree(), g.layout.start[i];
    CompletedFacts(PassBlocks(g.heads, g.layout), g.Predecessors(), g.run);
    AtMostTwo(g.code, g.beyond, g.layout);
    f.UpBasics(q);
    ExactIffStable(g.Predecessors(), g.run);
    f.UpStep(s);
    assert f.Above(q, s);
  }

  /** In a decided graph that holds of every pushed branch. */
  lemma DecidedPopOnEveryPath(g: RoutineGraph, conditional: seq<bool>, i: nat, q: Addr)
    requires g.Built() && |conditional| == |g.code| && i < |g.code| && |g.run| > 0 && i < |g.layout.start|
    requires Controls(g, conditional, i, q) && Decided(g.Predecessors())
    ensures PostDominates(g.Predecessors(), q, g.layout.start[i])
  {
    hide Decided, PostDominates, Scan;
    g.DecidedTree();
    var f, s := g.Tree(), g.layout.start[i];
    f.UpBasics(q);
    f.UpStep(s);
    assert f.Above(q, s);
  }
}
