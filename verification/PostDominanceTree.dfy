/** The worklist pass on the blocks themselves: it executes a run of the machine with the descendant maps. */
module PostDominanceTree {
  import opened PostDominance
  import opened PostDominancePass
  import opened DescendantRows
  import opened KeyedPass
  import opened BasicBlocks

  ghost function BlocksAt(G: Blocks, addresses: set<Addr>): set<BasicBlock>
    requires addresses <= G.Keys
  {
    set a | a in addresses :: G[a]
  }

  /** g is the predecessor graph of the blocks. */
  ghost predicate GraphOf(G: Blocks, g: Graph)
    reads G.Values`predecessors
  {
    && g.Keys == G.Keys
    && forall a | a in G :: g[a] <= G.Keys && G[a].predecessors == BlocksAt(G, g[a])
  }

  /** The blocks waiting in the queue. */
  ghost predicate QueueOf(G: Blocks, queue: seq<BasicBlock>, q: seq<Addr>) {
    |queue| == |q| && forall i | 0 <= i < |q| :: q[i] in G && queue[i] == G[q[i]]
  }

  /** The blocks hold tree f and the rows T. */
  ghost predicate Holds(G: Blocks, f: Forest, T: Rows)
    reads G.Values`startingAddress, G.Values`PostDominator, G.Values`isPostDominated, G.Values`postDominated
  {
    Pointers(G, f) && Named(G) && Table(G) == T
  }

  /** tr is a run of the pass on g, which s ends. */
  ghost predicate EndsRun(g: Graph, tr: seq<Keyed>, s: Keyed) {
    WellFormed(g) && IsKeyedRun(g, tr) && s == tr[|tr| - 1]
  }

  /** The concrete state of the pass is that of s. */
  ghost predicate InSync(G: Blocks, g: Graph, s: Keyed, current: BasicBlock,
                         todo: set<BasicBlock>, queue: seq<BasicBlock>)
    reads G.Values`startingAddress, G.Values`PostDominator, G.Values`isPostDominated, G.Values`postDominated
  {
    && Holds(G, s.at.forest, s.rows) && s.at.cur in s.at.forest.rank && g.Keys == G.Keys
    && current == G[s.at.cur]
    && s.at.todo <= G.Keys && todo == BlocksAt(G, s.at.todo) && RETURN !in s.at.todo
    && QueueOf(G, queue, s.at.queue)
  }

  /** A run goes on with a visit. */
  lemma VisitExtends(g: Graph, tr: seq<Keyed>, s: Keyed, p: Addr)
    requires EndsRun(g, tr, s) && p in s.at.todo
    ensures Rooted(s) && p in s.rows && Rooted(KeyedVisited(s, p))
    ensures KeyedVisited(s, p).at.forest.rank.Keys <= g.Keys
    ensures EndsRun(g, tr + [KeyedVisited(s, p)], KeyedVisited(s, p))
  {
    hide Tidy, WellFormed, KeyedVisited;
    KeyedTidy(g, tr, |tr| - 1);
    VisitTidy(g, s, p);
    TidyRooted(g, KeyedVisited(s, p));
    assert KeyedVisit(s, KeyedVisited(s, p), p);
    ExtendRun(g, tr, KeyedVisited(s, p));
  }

  lemma BlocksAtRemove(G: Blocks, addresses: set<Addr>, p: Addr)
    requires addresses <= G.Keys && p in addresses
    requires forall a | a in addresses && a != p :: G[a] != G[p]
    ensures BlocksAt(G, addresses - {p}) == BlocksAt(G, addresses) - {G[p]}
  {
  }

  /** One turn of the loop over the predecessors. */
  method VisitPredecessor(currentBlock: BasicBlock, targetBlock: BasicBlock, blockQueue: seq<BasicBlock>,
                          ghost todo: set<BasicBlock>, ghost G: Blocks, ghost g: Graph,
                          ghost tr: seq<Keyed>, ghost s: Keyed)
    returns (queue: seq<BasicBlock>)
    requires EndsRun(g, tr, s) && InSync(G, g, s, currentBlock, todo, blockQueue) && targetBlock in todo
    modifies G.Values`postDominated, targetBlock`PostDominator, targetBlock`isPostDominated
    ensures targetBlock.startingAddress in s.at.todo && targetBlock.startingAddress in s.rows && Rooted(s)
    ensures var t := KeyedVisited(s, targetBlock.startingAddress);
            EndsRun(g, tr + [t], t) && InSync(G, g, t, currentBlock, todo - {targetBlock}, queue)
  {
    hide EndsRun, Holds, QueueOf, BlocksAt, Relinked, NewParent, VisitedRows, Forest.Valid;
    ghost var p := targetBlock.startingAddress;
    TargetFacts(G, g, s, currentBlock, todo, blockQueue, targetBlock);
    queue := blockQueue;
    if targetBlock.PostDominator == null {
      queue := queue + [targetBlock];
    }
    VisitExtends(g, tr, s, p);
    VisitQueues(G, blockQueue, s, p);
    VisitEdge(currentBlock, targetBlock, G, s);
  }

  lemma TargetFacts(G: Blocks, g: Graph, s: Keyed, current: BasicBlock, todo: set<BasicBlock>,
                    queue: seq<BasicBlock>, target: BasicBlock)
    requires InSync(G, g, s, current, todo, queue) && target in todo
    ensures target.In(G) && target.startingAddress in s.at.todo
    ensures target.PostDominator == null <==> target.startingAddress !in s.at.forest.parent
    ensures forall a, b | a in G && b in G && a != b :: G[a] != G[b]
  {
  }

  /** The visit itself. */
  method VisitEdge(currentBlock: BasicBlock, targetBlock: BasicBlock, ghost G: Blocks, ghost s: Keyed)
    requires Rooted(s) && Holds(G, s.at.forest, s.rows) && s.at.cur in G && currentBlock == G[s.at.cur]
    requires targetBlock.In(G) && targetBlock.startingAddress != RETURN && targetBlock.startingAddress in s.rows
    requires Rooted(KeyedVisited(s, targetBlock.startingAddress))
    requires KeyedVisited(s, targetBlock.startingAddress).at.forest.rank.Keys <= G.Keys
    modifies G.Values`postDominated, targetBlock`PostDominator, targetBlock`isPostDominated
    ensures var t := KeyedVisited(s, targetBlock.startingAddress);
            Holds(G, t.at.forest, t.rows)
  {
    hide NewParent, VisitedRows, Table, Named, Forest.Valid, Relinked;
    currentBlock.AddPredecessorAsPostDominated(targetBlock, G, s.at.forest);
    RelinkedParent(s.at.forest, targetBlock.startingAddress,
                   NewParent(s.at.forest, s.rows, s.at.cur, targetBlock.startingAddress));
  }

  lemma RelinkedParent(f: Forest, p: Addr, n: Addr)
    requires n in f.rank
    ensures Relinked(f, p, n).parent == f.parent[p := n]
  {
  }

  /** What the loop keeps in `todo` and in the queue is what the run has there. */
  lemma VisitQueues(G: Blocks, queue: seq<BasicBlock>, s: Keyed, p: Addr)
    requires Rooted(s) && p in s.rows && p in G && QueueOf(G, queue, s.at.queue)
    requires s.at.todo <= G.Keys && p in s.at.todo && forall a, b | a in G && b in G && a != b :: G[a] != G[b]
    ensures QueueOf(G, if p in s.at.forest.parent then queue else queue + [G[p]], KeyedVisited(s, p).at.queue)
    ensures BlocksAt(G, KeyedVisited(s, p).at.todo) == BlocksAt(G, s.at.todo) - {G[p]}
  {
    BlocksAtRemove(G, s.at.todo, p);
  }

  lemma BlocksAtEmpty(G: Blocks, addresses: set<Addr>)
    requires addresses <= G.Keys
    ensures BlocksAt(G, addresses) == {} ==> addresses == {}
  {
    if addresses != {} {
      var a :| a in addresses;
      assert G[a] in BlocksAt(G, addresses);
    }
  }

  /** The loop over the predecessors of the current block. */
  method VisitPredecessors(currentBlock: BasicBlock, blockQueue: seq<BasicBlock>,
                           ghost G: Blocks, ghost g: Graph, ghost tr: seq<Keyed>, ghost s: Keyed)
    returns (queue: seq<BasicBlock>, ghost run: seq<Keyed>, ghost t: Keyed)
    requires EndsRun(g, tr, s) && InSync(G, g, s, currentBlock, currentBlock.predecessors, blockQueue)
    modifies G.Values`postDominated, G.Values`PostDominator, G.Values`isPostDominated
    ensures EndsRun(g, run, t) && InSync(G, g, t, currentBlock, {}, queue) && t.at.done == s.at.done
  {
    var edgeTargets := currentBlock.predecessors;
    queue := blockQueue;
    run, t := tr, s;
    while edgeTargets != {}
      invariant EndsRun(g, run, t) && InSync(G, g, t, currentBlock, edgeTargets, queue) && t.at.done == s.at.done
      decreases edgeTargets
    {
      var targetBlock :| targetBlock in edgeTargets;
      assert targetBlock in G.Values;
      queue := VisitPredecessor(currentBlock, targetBlock, queue, edgeTargets, G, g, run, t);
      t := KeyedVisited(t, targetBlock.startingAddress);
      run := run + [t];
      edgeTargets := edgeTargets - {targetBlock};
    }
  }

  /** The next block is taken from the queue. */
  lemma StartNext(G: Blocks, g: Graph, tr: seq<Keyed>, s: Keyed, current: BasicBlock, queue: seq<BasicBlock>)
    returns (t: Keyed)
    requires GraphOf(G, g) && |queue| > 0 && EndsRun(g, tr, s)
    requires InSync(G, g, s, current, {}, queue)
    ensures EndsRun(g, tr + [t], t) && InSync(G, g, t, queue[0], queue[0].predecessors, queue[1..])
    ensures s.at.done < t.at.done <= g.Keys
  {
    hide EndsRun, Holds, BlocksAt;
    BlocksAtEmpty(G, s.at.todo);
    t := PopExtends(g, tr, s);
  }

  /** A run goes on with the next block. */
  lemma PopExtends(g: Graph, tr: seq<Keyed>, s: Keyed) returns (t: Keyed)
    requires EndsRun(g, tr, s) && s.at.todo == {} && s.at.queue != []
    ensures s.at.queue[0] in g && EndsRun(g, tr + [t], t) && t == Keyed(Pop(g, s.at), s.rows)
    ensures s.at.queue[0] in s.at.forest.rank && RETURN !in g[s.at.queue[0]] && g[s.at.queue[0]] <= g.Keys
    ensures s.at.done < t.at.done <= g.Keys
  {
    KeyedTidy(g, tr, |tr| - 1);
    PopGrows(g, s.at);
    hide AttachedIffVisited, Reached, ByRank, WellFormed;
    t := Keyed(Pop(g, s.at), s.rows);
    assert KeyedPop(g, s, t);
    ExtendRun(g, tr, t);
  }

  /** The blocks hold what a finished run of the pass over g leaves. */
  ghost predicate Completed(G: Blocks, g: Graph, run: seq<Keyed>)
    reads G.Values`startingAddress, G.Values`PostDominator, G.Values`isPostDominated, G.Values`postDominated
  {
    && WellFormed(g) && g.Keys == G.Keys
    && IsKeyedRun(g, run) && Finished(run[|run| - 1].at)
    && Holds(G, run[|run| - 1].at.forest, run[|run| - 1].rows)
  }

  lemma CompletedFacts(G: Blocks, g: Graph, run: seq<Keyed>)
    requires Completed(G, g, run)
    ensures |run| > 0 && g.Keys == G.Keys && WellFormed(g)
    ensures IsKeyedRun(g, run) && Finished(run[|run| - 1].at)
    ensures Pointers(G, run[|run| - 1].at.forest)
  {
  }

  lemma NothingLeft(G: Blocks, g: Graph, tr: seq<Keyed>, s: Keyed, current: BasicBlock, queue: seq<BasicBlock>)
    requires EndsRun(g, tr, s) && InSync(G, g, s, current, {}, queue) && queue == []
    ensures Completed(G, g, tr)
  {
    hide Holds, IsKeyedRun;
    BlocksAtEmpty(G, s.at.todo);
  }

  /** The whole pass, from a block whose predecessors are all still to visit.  The queue is passed by
      value: every call works on a copy of its own. */
  method BuildPostDominanceTree(currentBlock: BasicBlock, blockQueue: seq<BasicBlock>,
                                ghost G: Blocks, ghost g: Graph, ghost tr: seq<Keyed>, ghost s: Keyed)
    returns (ghost run: seq<Keyed>)
    requires GraphOf(G, g) && EndsRun(g, tr, s)
    requires InSync(G, g, s, currentBlock, currentBlock.predecessors, blockQueue)
    modifies G.Values`postDominated, G.Values`PostDominator, G.Values`isPostDominated
    ensures Completed(G, g, run)
    decreases g.Keys - s.at.done
  {
    hide EndsRun, InSync, Completed;
    ghost var t;
    var queue;
    queue, run, t := VisitPredecessors(currentBlock, blockQueue, G, g, tr, s);
    if |queue| > 0 {
      var nextBlock := queue[0];
      ghost var u := StartNext(G, g, run, t, currentBlock, queue);
      run := BuildPostDominanceTree(nextBlock, queue[1..], G, g, run + [u], u);
    } else {
      NothingLeft(G, g, run, t, currentBlock, queue);
    }
  }
}
