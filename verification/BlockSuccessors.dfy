/** How many blocks a block of a routine precedes: it ends once, and no branch leads to more than two. */
module BlockSuccessors {
  import opened PostDominance
  import opened KeyedPass
  import opened Routine
  import opened BlockScan

  /** Instruction i falls from the block at s into the next one. */
  ghost predicate FallsFrom(L: Layout, i: nat, s: Addr)
    requires L.Valid() && 1 <= i < |L.addr|
  {
    !L.closed[i] && L.targeted[i] && s == L.start[i - 1]
  }

  /** Instruction i is a branch in the block at s. */
  ghost predicate BranchesFrom(code: seq<Ins>, L: Layout, i: nat, s: Addr)
    requires L.Valid() && 1 <= i < |code| == |L.addr|
  {
    BranchSet(code[i]) != {} && s == L.start[i]
  }

  lemma LayoutSizes(code: seq<Ins>, L: Layout)
    requires IsLayout(code, L)
    ensures L.Valid() && |L.addr| == |L.start| == |L.head| == |L.targeted| == |code| && |L.closed| == |code| + 1
  {
  }

  /** A branch closes its block, so that a block starts behind it. */
  lemma BranchCloses(code: seq<Ins>, L: Layout, i: nat)
    requires IsLayout(code, L) && 1 <= i < |code| && BranchSet(code[i]) != {}
    ensures L.Valid() && i + 1 < |L.closed| && L.closed[i + 1]
    ensures i + 1 < |code| == |L.head| ==> L.head[i + 1]
  {
  }

  lemma NotBehindTarget(L: Layout, i: nat, j: nat)
    requires L.Valid() && 1 <= i <= j < |L.addr| && L.targeted[i]
    ensures L.start[i - 1] != L.start[j] && (i < j ==> L.start[i - 1] != L.start[j - 1])
  {
    L.StartsDiffer(i - 1, j);
    if i < j {
      L.StartsDiffer(i - 1, j - 1);
    }
  }

  lemma NotBehindBranch(code: seq<Ins>, L: Layout, i: nat, j: nat)
    requires IsLayout(code, L) && 1 <= i < j < |code| && BranchSet(code[i]) != {}
    ensures L.Valid() && j < |L.start| && j < |L.closed|
    ensures L.start[i] != L.start[j] && (L.closed[j] || L.start[i] != L.start[j - 1])
  {
    hide IsLayout, Layout.Valid, BranchSet;
    LayoutSizes(code, L);
    BranchCloses(code, L, i);
    L.StartsDiffer(i, j);
    if j == i + 1 {
      assert L.closed[j];
    } else {
      L.StartsDiffer(i, j - 1);
    }
  }

  /** A block ends once. */
  lemma EndsOnce(code: seq<Ins>, L: Layout, i: nat, j: nat, s: Addr)
    requires IsLayout(code, L) && 1 <= i < |code| && 1 <= j < |code|
    requires L.Valid() && |L.addr| == |code|
    requires FallsFrom(L, i, s) || BranchesFrom(code, L, i, s)
    requires FallsFrom(L, j, s) || BranchesFrom(code, L, j, s)
    ensures i == j && (FallsFrom(L, i, s) ==> !BranchesFrom(code, L, i, s))
  {
    hide IsLayout, Layout.Valid, BranchSet;
    LayoutSizes(code, L);
    if i < j {
      EndsNoLater(code, L, i, j, s);
    } else if j < i {
      EndsNoLater(code, L, j, i, s);
    } else if FallsFrom(L, i, s) {
      NotBehindTarget(L, i, i);
    }
  }

  lemma EndsNoLater(code: seq<Ins>, L: Layout, i: nat, j: nat, s: Addr)
    requires IsLayout(code, L) && 1 <= i < j < |code|
    requires L.Valid() && |L.addr| == |code|
    requires FallsFrom(L, i, s) || BranchesFrom(code, L, i, s)
    ensures !FallsFrom(L, j, s) && !BranchesFrom(code, L, j, s)
  {
    hide IsLayout, Layout.Valid, BranchSet;
    LayoutSizes(code, L);
    if FallsFrom(L, i, s) {
      NotBehindTarget(L, i, j);
    } else {
      NotBehindBranch(code, L, i, j);
    }
  }

  /** Where the block at s leads if it ends at instruction i. */
  ghost function Out(code: seq<Ins>, beyond: Addr, L: Layout, i: nat, s: Addr): (targets: set<Addr>)
    requires L.Valid() && 1 <= i < |code| == |L.addr|
    ensures |targets| <= 2
  {
    if BranchesFrom(code, L, i, s) then TwoTargets(BranchSet(code[i]), L.start[i], NextAddr(code, i, beyond))
    else {L.addr[i]}
  }

  ghost function TwoTargets(bs: set<Addr>, start: Addr, next: Addr): (targets: set<Addr>)
    requires bs != {}
    ensures targets == BranchTargets(bs, start, next) && |targets| <= 2
  {
    BranchTargets(bs, start, next)
  }

  lemma LeadsOut(code: seq<Ins>, beyond: Addr, L: Layout, i: nat, j: nat, s: Addr, t: Addr)
    requires IsLayout(code, L) && 1 <= i < |code| && 1 <= j < |code|
    requires L.Valid() && |L.addr| == |code|
    requires FallsFrom(L, i, s) || BranchesFrom(code, L, i, s)
    requires Leads(code, L, beyond, j, s, t)
    ensures t in Out(code, beyond, L, i, s)
  {
    hide IsLayout, Layout.Valid, BranchTargets;
    LayoutSizes(code, L);
    EndsOnce(code, L, i, j, s);
  }

  /** In the predecessor graph of every routine a block precedes at most two blocks from which the return
      block can be reached. */
  lemma AtMostTwo(code: seq<Ins>, beyond: Addr, L: Layout)
    requires Plausible(code, beyond) && IsLayout(code, L)
    ensures AtMost(PredecessorGraph(L, Scan(code, beyond).edges), 2)
  {
    var g := PredecessorGraph(L, Scan(code, beyond).edges);
    hide Scan, Succs, IsLayout, Leads, Out, BranchTargets;
    forall s ensures |Succs(g, s)| <= 2 {
      if Succs(g, s) != {} {
        var t :| t in Succs(g, s);
        EdgesExactly(code, beyond, L, s, t);
        var i :| 1 <= i < |code| && Leads(code, L, beyond, i, s, t);
        LeadsFrom(code, beyond, L, i, s, t);
        forall u | u in Succs(g, s) ensures u in Out(code, beyond, L, i, s) {
          EdgesExactly(code, beyond, L, s, u);
          var j :| 1 <= j < |code| && Leads(code, L, beyond, j, s, u);
          LeadsOut(code, beyond, L, i, j, s, u);
        }
        SubsetSize(Succs(g, s), Out(code, beyond, L, i, s));
      }
    }
  }

  lemma LeadsFrom(code: seq<Ins>, beyond: Addr, L: Layout, i: nat, s: Addr, t: Addr)
    requires IsLayout(code, L) && 1 <= i < |code| && Leads(code, L, beyond, i, s, t)
    ensures L.Valid() && |L.addr| == |code| && (FallsFrom(L, i, s) || BranchesFrom(code, L, i, s))
  {
  }
}
