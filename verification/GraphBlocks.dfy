/** What the basic blocks on the heap hold while the second pass builds them. */
module GraphBlocks {
  import opened PostDominance
  import opened BasicBlocks
  import opened Routine
  import opened BlockScan

  ghost predicate Injective(H: Blocks) {
    forall a, b | a in H && b in H && a != b :: H[a] != H[b]
  }

  /** The sources of the edges that lead to a. */
  ghost function Sources(H: Blocks, E: Edges, a: Addr): set<BasicBlock> {
    set e | e in E && e.1 == a && e.0 in H :: H[e.0]
  }

  /** The address map m leads to the blocks that c names. */
  ghost predicate Wired(m: Blocks, H: Blocks, c: Cfg) {
    && c.Valid() && H.Keys == c.first.Keys && m.Keys == c.blockAt.Keys
    && forall a | a in m :: m[a] == H[c.blockAt[a]]
  }

  lemma WiredNew(m: Blocks, H: Blocks, c: Cfg, a: Addr, b: BasicBlock)
    requires Wired(m, H, c) && a !in m
    ensures a !in H && Wired(m[a := b], H[a := b], c.Lookup(a))
  {
    LookupValid(c, a);
  }

  lemma WiredMap(m: Blocks, H: Blocks, c: Cfg, a: Addr, k: Addr)
    requires Wired(m, H, c) && k in H
    ensures Wired(m[a := H[k]], H, c.MapAddress(a, k))
  {
    assert forall x :: c.MapAddress(a, k).Created(x) == c.Created(x);
  }

  /** The blocks H carry the addresses and predecessors that c says. */
  ghost predicate Carried(H: Blocks, c: Cfg)
    reads H.Values`startingAddress, H.Values`endingAddress, H.Values`predecessors
  {
    && H.Keys == c.first.Keys == c.last.Keys && Injective(H)
    && (forall k | k in H :: H[k].startingAddress == c.first[k] && H[k].endingAddress == c.last[k])
    && (forall k | k in H :: H[k].predecessors == Sources(H, c.edges, k))
  }

  lemma SourcesAdd(H: Blocks, E: Edges, s: Addr, t: Addr)
    requires s in H
    ensures forall a | a in H ::
              Sources(H, E + {(s, t)}, a) == if a == t then Sources(H, E, a) + {H[s]} else Sources(H, E, a)
  {
  }

  /** A new block is the source and the target of no edge. */
  lemma SourcesNew(H: Blocks, E: Edges, k: Addr, b: BasicBlock)
    requires k !in H && forall e | e in E :: e.0 in H && e.1 in H
    ensures forall a | a in H :: Sources(H[k := b], E, a) == Sources(H, E, a)
    ensures Sources(H[k := b], E, k) == {}
  {
  }

  lemma CarriedNew(H: Blocks, c: Cfg, a: Addr, b: BasicBlock)
    requires c.Valid() && Carried(H, c) && a !in c.blockAt && (forall k | k in H :: H[k] != b)
    requires b.startingAddress == 0 && b.endingAddress == 0 && b.predecessors == {}
    ensures Carried(H[a := b], c.Lookup(a))
  {
    LookupValid(c, a);
    SourcesNew(H, c.edges, a, b);
  }

  /** No post-dominance information is stored yet. */
  ghost predicate Blank(H: Blocks)
    reads H.Values`PostDominator, H.Values`isPostDominated, H.Values`postDominated
  {
    forall k | k in H :: H[k].PostDominator == null && !H[k].isPostDominated && H[k].postDominated == map[]
  }

  ghost predicate RepOf(m: Blocks, all: set<BasicBlock>, H: Blocks, c: Cfg)
    reads all
  {
    && (forall k | k in H :: H[k] in all)
    && Wired(m, H, c) && Carried(H, c) && Blank(H)
  }

  lemma RepNew(m: Blocks, all: set<BasicBlock>, H: Blocks, c: Cfg, a: Addr, b: BasicBlock)
    requires RepOf(m, all, H, c) && a !in m && b !in all
    requires b.startingAddress == 0 && b.endingAddress == 0 && b.predecessors == {}
    requires b.PostDominator == null && !b.isPostDominated && b.postDominated == map[]
    ensures a !in H && RepOf(m[a := b], all + {b}, H[a := b], c.Lookup(a))
  {
    hide Wired, Carried;
    assert c.Valid() && a !in c.blockAt by { WiredKeys(m, H, c); }
    WiredNew(m, H, c, a, b);
    CarriedNew(H, c, a, b);
  }

  lemma WiredKeys(m: Blocks, H: Blocks, c: Cfg)
    requires Wired(m, H, c)
    ensures c.Valid() && H.Keys == c.first.Keys && m.Keys == c.blockAt.Keys
  {
  }

  lemma WiredInitial(a: Addr, head: BasicBlock, end: BasicBlock)
    requires a != RETURN
    ensures var H: Blocks := map[a := head, RETURN := end];
            Wired(H, H, Initial(a)) && H.Keys == {a, RETURN} && H[a] == head && H[RETURN] == end
  {
  }

  lemma CarriedInitial(H: Blocks, a: Addr)
    requires a != RETURN && H.Keys == {a, RETURN} && H[a] != H[RETURN]
    requires H[a].startingAddress == a && H[a].endingAddress == 0 && H[a].predecessors == {}
    requires H[RETURN].startingAddress == RETURN && H[RETURN].endingAddress == RETURN && H[RETURN].predecessors == {}
    ensures Carried(H, Initial(a))
  {
    assert forall k :: Sources(H, {}, k) == {};
  }

  lemma RepInitial(a: Addr, head: BasicBlock, end: BasicBlock)
    requires a != RETURN && head != end
    requires head.startingAddress == a && head.endingAddress == 0 && head.predecessors == {}
    requires head.PostDominator == null && !head.isPostDominated && head.postDominated == map[]
    requires end.startingAddress == RETURN && end.endingAddress == RETURN && end.predecessors == {}
    requires end.PostDominator == null && !end.isPostDominated && end.postDominated == map[]
    ensures RepOf(map[a := head, RETURN := end], {head, end}, map[a := head, RETURN := end], Initial(a))
  {
    var H: Blocks := map[a := head, RETURN := end];
    WiredInitial(a, head, end);
    CarriedInitial(H, a);
  }

  lemma RepMap(m: Blocks, all: set<BasicBlock>, H: Blocks, c: Cfg, a: Addr, k: Addr)
    requires RepOf(m, all, H, c) && k in H
    ensures RepOf(m[a := H[k]], all, H, c.MapAddress(a, k))
  {
    WiredMap(m, H, c, a, k);
  }

  /** Inserts `from`, block k, into the predecessors of block t. */
  method InsertInto(b: BasicBlock, from: BasicBlock, ghost H: Blocks, ghost c: Cfg, ghost k: Addr, ghost t: Addr)
    requires Carried(H, c) && k in H && H[k] == from && t in H && H[t] == b
    modifies b`predecessors
    ensures Carried(H, c.(edges := c.edges + {(k, t)}))
  {
    SourcesAdd(H, c.edges, k, t);
    b.predecessors := b.predecessors + {from};
  }

  lemma WiredEdge(m: Blocks, H: Blocks, c: Cfg, k: Addr, t: Addr)
    requires Wired(m, H, c) && k in H && t in H
    ensures Wired(m, H, c.(edges := c.edges + {(k, t)}))
  {
    assert forall x :: c.(edges := c.edges + {(k, t)}).Created(x) == c.Created(x);
  }

  method AddPredecessor(b: BasicBlock, from: BasicBlock, ghost m: Blocks, ghost all: set<BasicBlock>,
                        ghost H: Blocks, ghost c: Cfg, ghost k: Addr, ghost t: Addr)
    requires RepOf(m, all, H, c) && k in H && H[k] == from && t in H && H[t] == b
    modifies b`predecessors
    ensures RepOf(m, all, H, c.(edges := c.edges + {(k, t)}))
  {
    WiredEdge(m, H, c, k, t);
    InsertInto(b, from, H, c, k, t);
  }

  method StampFirst(b: BasicBlock, a: Addr, ghost m: Blocks, ghost all: set<BasicBlock>,
                    ghost H: Blocks, ghost c: Cfg, ghost k: Addr)
    requires RepOf(m, all, H, c) && k in H && H[k] == b
    modifies b`startingAddress
    ensures RepOf(m, all, H, c.SetFirst(k, a))
  {
    b.startingAddress := a;
  }

  method StampLast(b: BasicBlock, a: Addr, ghost m: Blocks, ghost all: set<BasicBlock>,
                   ghost H: Blocks, ghost c: Cfg, ghost k: Addr)
    requires RepOf(m, all, H, c) && k in H && H[k] == b
    modifies b`endingAddress
    ensures RepOf(m, all, H, c.SetLast(k, a))
  {
    b.endingAddress := a;
  }
}
