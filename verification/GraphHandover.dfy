/** The graph of the second pass, handed to the post-dominance pass. */
module GraphHandover {
  import opened PostDominance
  import opened PostDominancePass
  import opened DescendantRows
  import opened KeyedPass
  import opened PostDominanceTree
  import opened BasicBlocks
  import opened Routine
  import opened BlockScan
  import opened GraphBlocks

  /** The blocks that take part in the pass. */
  ghost function PassBlocks(H: Blocks, L: Layout): Blocks
    requires Starts(L) <= H.Keys
  {
    map a | a in Starts(L) :: H[a]
  }

  lemma PassBlocksAddressed(code: seq<Ins>, beyond: Addr, L: Layout, H: Blocks)
    requires Plausible(code, beyond) && IsLayout(code, L) && Carried(H, Scan(code, beyond))
    ensures Starts(L) <= H.Keys && Addressed(PassBlocks(H, L))
  {
    forall a | a in Starts(L) ensures a in H && H[a].startingAddress == a {
      StartsCreated(code, beyond, L, a);
    }
  }

  lemma PassBlocksUnattached(G: Blocks)
    requires RETURN in G && Addressed(G) && Blank(G)
    ensures Holds(G, Forest(map[], map[RETURN := 0]), map a | a in G :: map[])
  {
  }

  lemma PassBlocksLinked(code: seq<Ins>, beyond: Addr, L: Layout, H: Blocks)
    requires Plausible(code, beyond) && IsLayout(code, L) && Carried(H, Scan(code, beyond))
    requires Starts(L) <= H.Keys
    ensures GraphOf(PassBlocks(H, L), PredecessorGraph(L, Scan(code, beyond).edges))
  {
    var G, g, E := PassBlocks(H, L), PredecessorGraph(L, Scan(code, beyond).edges), Scan(code, beyond).edges;
    forall e | e in E ensures e.0 in Starts(L) {
      SourcesAreStarts(code, beyond, L, e);
    }
    forall a | a in G
      ensures g[a] <= G.Keys && G[a].predecessors == BlocksAt(G, g[a])
    {
      SourcesAreBlocks(H, E, L, a);
    }
  }

  lemma SourcesAreBlocks(H: Blocks, E: Edges, L: Layout, a: Addr)
    requires Starts(L) <= H.Keys && (forall e | e in E :: e.0 in Starts(L)) && a in Starts(L)
    ensures PredecessorGraph(L, E)[a] <= Starts(L)
    ensures Sources(H, E, a) == BlocksAt(PassBlocks(H, L), PredecessorGraph(L, E)[a])
  {
    var G, sources := PassBlocks(H, L), PredecessorGraph(L, E)[a];
    forall b | b in Sources(H, E, a) ensures b in BlocksAt(G, sources) {
      var e :| e in E && e.1 == a && e.0 in H && b == H[e.0];
      assert e.0 in sources && G[e.0] == b;
    }
    forall b | b in BlocksAt(G, sources) ensures b in Sources(H, E, a) {
      var s :| s in sources && b == G[s];
      var e :| e in E && e.1 == a && e.0 == s;
    }
  }

  /** The finished graph is a starting point for the pass. */
  lemma ReadyForPass(code: seq<Ins>, beyond: Addr, L: Layout, m: Blocks, all: set<BasicBlock>, H: Blocks)
    requires Plausible(code, beyond) && IsLayout(code, L) && RepOf(m, all, H, Scan(code, beyond))
    requires RETURN in H
    ensures Starts(L) <= H.Keys && Wired(m, H, Scan(code, beyond)) && Carried(H, Scan(code, beyond))
    ensures var G, g := PassBlocks(H, L), PredecessorGraph(L, Scan(code, beyond).edges);
            && G.Values <= all && WellFormed(g) && GraphOf(G, g)
            && EndsRun(g, [KeyedStart(g)], KeyedStart(g))
            && InSync(G, g, KeyedStart(g), H[RETURN], H[RETURN].predecessors, [])
  {
    hide Scan, Wired, Holds, Carried, IsLayout, WellFormed, GraphOf, PredecessorGraph;
    PassBlocksAddressed(code, beyond, L, H);
    var G, g := PassBlocks(H, L), PredecessorGraph(L, Scan(code, beyond).edges);
    PassBlocksLinked(code, beyond, L, H);
    GraphWellFormed(code, beyond, L);
    PassBlocksUnattached(G);
    assert G[RETURN] == H[RETURN];
  }

  /** After the pass a block has a parent exactly when control can get from it to the return block. */
  lemma ParentIffReaches(G: Blocks, g: Graph, run: seq<Keyed>, s: Addr)
    requires Completed(G, g, run) && s in G && s != RETURN
    ensures G[s].PostDominator != null <==> Reach(g, s, RETURN, {})
  {
    AttachedIffReachesReturn(g, run, s);
  }

  /** Where no block precedes three blocks that lead to the return block, each true strict post-dominator of a
      block is above it. */
  lemma BelowPostDominators(G: Blocks, g: Graph, run: seq<Keyed>, s: Addr, d: Addr)
    requires Completed(G, g, run) && AtMost(g, 2) && s in G && s != RETURN
    requires Reach(g, s, RETURN, {}) && d != s && PostDominates(g, d, s)
    ensures var f := run[|run| - 1].at.forest;
            f.Valid() && f.Above(d, s)
  {
    AttachedIffReachesReturn(g, run, s);
    KeyedAncestors(g, run, |run| - 1, s, d);
  }

  /** Then a block that precedes fewer than two blocks from which the return block can be reached is counted by
      exactly the blocks above it. */
  lemma CountedByAncestors(G: Blocks, g: Graph, run: seq<Keyed>, s: Addr, d: Addr)
    requires Completed(G, g, run) && AtMost(g, 2) && s in G && d in G && |Succs(g, s)| < 2
    ensures var f := run[|run| - 1].at.forest;
            && f.Valid()
            && (f.Above(d, s) <==> s in G[d].postDominated && G[d].postDominated[s] == G[s])
  {
    hide Named, Linked, AtMost, WellFormed, Finished, KeyedNext, Succs, Counts, Forest.Valid, Forest.Above;
    var t := run[|run| - 1];
    FinalCounts(g, run, s, d);
    CountsIff(G, t, s, d);
  }

  lemma FinalCounts(g: Graph, run: seq<Keyed>, s: Addr, d: Addr)
    requires WellFormed(g) && AtMost(g, 2) && IsKeyedRun(g, run) && Finished(run[|run| - 1].at)
    requires s in g && d in g && |Succs(g, s)| < 2
    ensures var t := run[|run| - 1];
            t.at.forest.Valid() && d in t.rows && (Counts(t.rows[d], s) <==> t.at.forest.Above(d, s))
  {
    AskedAtEnd(g, run);
    RowsFollowTree(g, run, |run| - 1, d, s);
  }

  lemma CountsIff(G: Blocks, t: Keyed, s: Addr, d: Addr)
    requires Holds(G, t.at.forest, t.rows) && s in G && d in G
    ensures d in t.rows
    ensures Counts(t.rows[d], s) <==> s in G[d].postDominated && G[d].postDominated[s] == G[s]
  {
    hide Pointers;
    assert t.rows[d] == RowOf(G[d].postDominated);
  }
}
