/** The control-flow graph of a routine: the two passes over its instructions that build the basic
    blocks, followed by the post-dominance pass. */
module RoutineGraphs {
  import opened PostDominance
  import opened PostDominancePass
  import opened KeyedPass
  import opened PassExactness
  import opened PostDominanceTree
  import opened BasicBlocks
  import opened Routine
  import opened BlockScan
  import opened BlockSuccessors
  import opened AddressMaps
  import opened GraphBlocks
  import opened GraphHandover

  class RoutineGraph {
    const code: seq<Ins>
    const beyond: Addr
    ghost const layout: Layout
    var branches: map<Addr, set<Addr>>
    var targets: map<Addr, set<Addr>>
    var addressMap: map<Addr, BasicBlock>
    var allBlocks: set<BasicBlock>
    var EntranceNode: BasicBlock?
    var ReturnNode: BasicBlock?

    // the blocks by the address they were created for, and what they should hold
    ghost var heads: Blocks
    ghost var cfg: Cfg

    // the run of the post-dominance pass
    ghost var run: seq<Keyed>

    /** The graph of the routine is complete: address map, blocks and edges are those of the scan, and
        post-dominance pointers and descendant maps are those of a finished run over its predecessor graph. */
    ghost predicate Built()
      reads this`addressMap, this`heads, this`cfg, this`run, heads.Values
    {
      && Plausible(code, beyond) && IsLayout(code, layout) && cfg == Scan(code, beyond)
      && Wired(addressMap, heads, cfg) && Carried(heads, cfg)
      && Starts(layout) <= heads.Keys
      && Completed(PassBlocks(heads, layout), Predecessors(), run)
    }

    ghost function Predecessors(): Graph
      reads this`cfg
    {
      PredecessorGraph(layout, cfg.edges)
    }

    /** Builds the control-flow graph of a routine and its post-dominance tree. */
    constructor (code: seq<Ins>, beyond: Addr)
      requires Plausible(code, beyond)
      ensures this.code == code && this.beyond == beyond && Built()
    {
      this.code := code;
      this.beyond := beyond;
      ghost var L := LayoutExists(code, beyond);
      layout := L;
      branches, targets, addressMap, allBlocks := map[], map[], map[], {};
      EntranceNode, ReturnNode := null, null;
      heads, cfg, run := map[], Initial(RETURN), [];
      new;
      hide RepOf, Scan, ScanUpTo;
      MapAll();
      BlockBuilder();
      BuildTree();
    }

    /** The post-dominance tree. */
    ghost function Tree(): Forest
      requires |run| > 0
      reads this`run
    {
      run[|run| - 1].at.forest
    }

    /** The block of every instruction has a parent exactly when control can get from it to the return
        block.  Then each of its true strict post-dominators is above it in the tree, and if the block
        precedes fewer than two blocks that lead there, exactly the blocks above it count it. */
    lemma InstructionPostDominators(i: nat, d: Addr)
      requires Built() && i < |code|
      ensures code[i].addr in addressMap && |run| > 0 && Tree().Valid()
      ensures var b, s, g := addressMap[code[i].addr], layout.start[i], Predecessors();
              && (b.PostDominator != null <==> Reach(g, s, RETURN, {}))
              && (Reach(g, s, RETURN, {}) && d != s && PostDominates(g, d, s) ==> Tree().Above(d, s))
              && (|Succs(g, s)| < 2 && d in g ==>
                    d in heads && (Tree().Above(d, s) <==>
                                   s in heads[d].postDominated && heads[d].postDominated[s] == b))
    {
      hide Scan, Starts, Carried, Wired, PredecessorGraph, Completed, Succs, AtMost, PostDominates, Reach, Forest.Valid,
        Forest.Above;
      var G, g, s := PassBlocks(heads, layout), Predecessors(), layout.start[i];
      MappedToStart(i);
      CompletedFacts(G, g, run);
      AtMostTwo(code, beyond, layout);
      ParentIffReaches(G, g, run, s);
      if Reach(g, s, RETURN, {}) && d != s && PostDominates(g, d, s) {
        BelowPostDominators(G, g, run, s, d);
      }
      if |Succs(g, s)| < 2 && d in g {
        CountedByAncestors(G, g, run, s, d);
      }
    }

    /** The tree of a routine whose predecessor graph is decided is exact. */
    lemma DecidedTree()
      requires Built() && Decided(Predecessors())
      ensures |run| > 0 && ExactTree(Predecessors(), Tree())
    {
      hide Decided, ExactTree, Scan, AtMost;
      CompletedFacts(PassBlocks(heads, layout), Predecessors(), run);
      AtMostTwo(code, beyond, layout);
      DecidedIsExact(Predecessors(), run);
    }

    lemma MappedToStart(i: nat)
      requires Built() && i < |code|
      ensures layout.start[i] in Starts(layout) && layout.start[i] != RETURN
      ensures code[i].addr in addressMap && addressMap[code[i].addr] == heads[layout.start[i]]
    {
      ScanEnds(code, beyond, layout);
      var k := layout.StartAt(i);
      hide Scan;
      assert layout.start[i] in Starts(layout);
    }

    /** Runs the post-dominance pass from the return block. */
    method BuildTree()
      requires Plausible(code, beyond) && IsLayout(code, layout)
      requires Rep() && cfg == Scan(code, beyond) && RETURN in heads && ReturnNode == heads[RETURN]
      modifies this`run, allBlocks
      ensures Built()
    {
      hide Scan, PassBlocks, PredecessorGraph, Starts, RepOf, Wired, Carried, InSync, EndsRun, Completed;
      ReadyForPass(code, beyond, layout, addressMap, allBlocks, heads);
      ghost var g := Predecessors();
      run := BuildPostDominanceTree(ReturnNode, [], PassBlocks(heads, layout), g, [KeyedStart(g)], KeyedStart(g));
    }

    // ------------------------------------------------------------ first pass

    method MapBranch(ins: Ins)
      modifies this`branches, this`targets
      ensures Recorded(old(branches), old(targets), branches, targets, ins.addr, BranchPart(ins), BranchTargetPart(ins))
    {
      var addr := ins.addr;
      if ins.isBranch {
        if ins.isDirect {
          branches := Insert(branches, addr, ins.target);
          targets := Insert(targets, ins.target, addr);
        } else {
          branches := Insert(branches, addr, INDIRECT_BRANCH);
        }
        if ins.hasFallThrough {
          branches := Insert(branches, addr, ins.next);
          targets := Insert(targets, ins.next, addr);
        }
      }
    }

    method MapCall(ins: Ins)
      modifies this`branches, this`targets
      ensures Recorded(old(branches), old(targets), branches, targets, ins.addr, CallPart(ins), CallTargetPart(ins))
    {
      var addr := ins.addr;
      if ins.isCall {
        branches := Insert(branches, addr, if ins.isDirect then CALL else INDIRECT_CALL);
        if ins.hasFallThrough {
          branches := Insert(branches, addr, ins.next);
          targets := Insert(targets, ins.next, addr);
        }
      }
    }

    /** Records the branches and targets of one instruction. */
    method Mapper(ins: Ins)
      modifies this`branches, this`targets
      ensures Recorded(old(branches), old(targets), branches, targets, ins.addr, BranchSet(ins), TargetsOf(ins))
    {
      ghost var b0, t0 := branches, targets;
      MapBranch(ins);
      ghost var b1, t1 := branches, targets;
      MapCall(ins);
      RecordedTwice(b0, t0, b1, t1, branches, targets, ins.addr,
                    BranchPart(ins), BranchTargetPart(ins), CallPart(ins), CallTargetPart(ins));
      ghost var b2 := branches;
      if ins.isRet {
        branches := Insert(branches, ins.addr, RETURN);
      }
      RecordedTwice(b0, t0, b2, targets, branches, targets, ins.addr,
                    BranchPart(ins) + CallPart(ins), TargetsOf(ins), if ins.isRet then {RETURN} else {}, {});
    }

    method MapAll()
      requires Plausible(code, beyond) && branches == map[] && targets == map[]
      modifies this`branches, this`targets
      ensures MappedBranches(code, branches, |code|) && MappedTargets(code, targets, |code|)
    {
      for n := 0 to |code|
        invariant MappedBranches(code, branches, n) && MappedTargets(code, targets, n)
      {
        ghost var b, t := branches, targets;
        Mapper(code[n]);
        MappedBranchesStep(code, beyond, b, t, branches, targets, n);
        MappedTargetsStep(code, b, t, branches, targets, n);
      }
    }

    // ------------------------------------------------------------ second pass

    /** The blocks and the address map hold what `cfg` says. */
    ghost predicate Rep()
      reads this`addressMap, this`allBlocks, this`heads, this`cfg, allBlocks
    {
      RepOf(addressMap, allBlocks, heads, cfg)
    }

    /** No block of H was replaced. */
    ghost predicate Extends(H: Blocks)
      reads this`heads
    {
      forall k | k in H :: k in heads && heads[k] == H[k]
    }

    /** What callers need to know of the representation. */
    lemma RepFacts()
      requires Rep()
      ensures cfg.Valid() && heads.Keys == cfg.first.Keys && addressMap.Keys == cfg.blockAt.Keys
      ensures forall k | k in heads :: heads[k] in allBlocks
    {
    }

    method CreateBlock(a: Addr)
      requires Rep() && a !in addressMap
      modifies this`addressMap, this`allBlocks, this`heads, this`cfg
      ensures Rep() && cfg == old(cfg).Lookup(a)
      ensures a !in old(heads) && a in heads && heads == old(heads)[a := heads[a]]
      ensures allBlocks == old(allBlocks) + {heads[a]} && fresh(heads[a])
    {
      var newBlock := new BasicBlock();
      ghost var H, c := heads[a := newBlock], cfg.Lookup(a);
      assert RepOf(addressMap[a := newBlock], allBlocks + {newBlock}, H, c) && a !in heads by {
        RepNew(addressMap, allBlocks, heads, cfg, a, newBlock);
      }
      Install(a, newBlock, H, c);
    }

    method Install(a: Addr, b: BasicBlock, ghost H: Blocks, ghost c: Cfg)
      requires RepOf(addressMap[a := b], allBlocks + {b}, H, c)
      modifies this`addressMap, this`allBlocks, this`heads, this`cfg
      ensures Rep() && cfg == c && heads == H && allBlocks == old(allBlocks) + {b}
    {
      addressMap := addressMap[a := b];
      allBlocks := allBlocks + {b};
      heads := H;
      cfg := c;
    }

    /** Finds the block of an address, or creates it. */
    method GetBasicBlockAt(targetAddress: Addr) returns (b: BasicBlock)
      requires Rep()
      modifies this`addressMap, this`allBlocks, this`heads, this`cfg
      ensures Rep() && cfg == old(cfg).Lookup(targetAddress)
      ensures b == heads[cfg.blockAt[targetAddress]]
      ensures fresh(allBlocks - old(allBlocks)) && Extends(old(heads))
    {
      if targetAddress !in addressMap {
        CreateBlock(targetAddress);
      }
      b := addressMap[targetAddress];
    }

    method InsertPreds(b: BasicBlock, from: BasicBlock, ghost k: Addr, ghost t: Addr)
      requires Rep() && k in heads && heads[k] == from && t in heads && heads[t] == b
      modifies this`cfg, b`predecessors
      ensures Rep() && cfg == old(cfg).(edges := old(cfg).edges + {(k, t)})
    {
      AddPredecessor(b, from, addressMap, allBlocks, heads, cfg, k, t);
      cfg := cfg.(edges := cfg.edges + {(k, t)});
    }

    method SetStarting(b: BasicBlock, a: Addr, ghost k: Addr)
      requires Rep() && k in heads && heads[k] == b
      modifies this`cfg, b`startingAddress
      ensures Rep() && cfg == old(cfg).SetFirst(k, a)
    {
      StampFirst(b, a, addressMap, allBlocks, heads, cfg, k);
      cfg := cfg.SetFirst(k, a);
    }

    method SetEnding(b: BasicBlock, a: Addr, ghost k: Addr)
      requires Rep() && k in heads && heads[k] == b
      modifies this`cfg, b`endingAddress
      ensures Rep() && cfg == old(cfg).SetLast(k, a)
    {
      StampLast(b, a, addressMap, allBlocks, heads, cfg, k);
      cfg := cfg.SetLast(k, a);
    }

    method MapAddress(a: Addr, b: BasicBlock, ghost k: Addr)
      requires Rep() && k in heads && heads[k] == b
      modifies this`cfg, this`addressMap
      ensures Rep() && cfg == old(cfg).MapAddress(a, k)
    {
      RepMap(addressMap, allBlocks, heads, cfg, a, k);
      addressMap := addressMap[a := b];
      cfg := cfg.MapAddress(a, k);
    }

    /** Makes `from` a predecessor of the block at `target`. */
    method AddEdge(from: BasicBlock, target: Addr, ghost k: Addr) returns (b: BasicBlock)
      requires Rep() && k in heads && heads[k] == from
      modifies this`addressMap, this`allBlocks, this`heads, this`cfg, allBlocks
      ensures Rep() && cfg == old(cfg).AddEdge(k, target)
      ensures b == heads[cfg.blockAt[target]] && b in allBlocks
      ensures fresh(allBlocks - old(allBlocks)) && Extends(old(heads))
    {
      hide RepOf;
      RepFacts();
      b := GetBasicBlockAt(target);
      RepFacts();
      InsertPreds(b, from, k, cfg.blockAt[target]);
    }

    /** The edges out of a block that ends in a branch. */
    method BranchEdges(currentBlock: BasicBlock, bs: set<Addr>, next: Addr, ghost k: Addr)
      requires Rep() && k in heads && heads[k] == currentBlock && bs != {}
      modifies this`addressMap, this`allBlocks, this`heads, this`cfg, allBlocks
      ensures Rep() && cfg == old(cfg).Branch(k, bs, next)
      ensures fresh(allBlocks - old(allBlocks)) && Extends(old(heads))
    {
      var target := Least(bs);
      if target == CALL || target == INDIRECT_CALL {
        var b := AddEdge(currentBlock, next, k);
      } else if target == RETURN {
        var b := AddEdge(currentBlock, RETURN, k);
      } else if target == INDIRECT_BRANCH {
      } else {
        ConditionalEdges(currentBlock, target, bs, next, k);
      }
    }

    method ConditionalEdges(currentBlock: BasicBlock, target: Addr, bs: set<Addr>, next: Addr, ghost k: Addr)
      requires Rep() && k in heads && heads[k] == currentBlock && bs != {} && target == Least(bs)
      requires target !in {CALL, INDIRECT_CALL, RETURN, INDIRECT_BRANCH}
      modifies this`addressMap, this`allBlocks, this`heads, this`cfg, allBlocks
      ensures Rep() && cfg == old(cfg).Branch(k, bs, next)
      ensures fresh(allBlocks - old(allBlocks)) && Extends(old(heads))
    {
      if bs == {target} && target != currentBlock.startingAddress {
        var b := AddEdge(currentBlock, target, k);
      } else {
        TwoEdges(currentBlock, target, if bs != {target} then Least(bs - {target}) else next, k);
      }
    }

    method TwoEdges(currentBlock: BasicBlock, t: Addr, u: Addr, ghost k: Addr)
      requires Rep() && k in heads && heads[k] == currentBlock
      modifies this`addressMap, this`allBlocks, this`heads, this`cfg, allBlocks
      ensures Rep() && cfg == old(cfg).AddEdge(k, t).AddEdge(k, u)
      ensures fresh(allBlocks - old(allBlocks)) && Extends(old(heads))
    {
      hide RepOf;
      RepFacts();
      var b := AddEdge(currentBlock, t, k);
      b := AddEdge(currentBlock, u, k);
    }

    /** Ends the current block at branch instruction i. */
    method BranchIns(i: nat, currentBlock: BasicBlock, ghost k: Addr)
      requires Rep() && k in heads && heads[k] == currentBlock && i < |code| && BranchSet(code[i]) != {}
      requires MappedBranches(code, branches, |code|)
      modifies this`addressMap, this`allBlocks, this`heads, this`cfg, allBlocks
      ensures Rep() && k in old(cfg).first && cfg == BlockScan.BranchIns(code, beyond, old(cfg), k, i)
      ensures fresh(allBlocks - old(allBlocks)) && Extends(old(heads))
    {
      hide RepOf;
      RepFacts();
      SetEnding(currentBlock, code[i].addr, k);
      MapAddress(code[i].addr, currentBlock, k);
      BranchEdges(currentBlock, At(branches, code[i].addr), NextAddr(code, i, beyond), k);
    }

    /** Instruction i lies in the current block; a branch closes it. */
    method Continue(i: nat, currentBlock: BasicBlock, ghost k: Addr) returns (open: BasicBlock?)
      requires Rep() && k in heads && heads[k] == currentBlock && i < |code|
      requires MappedBranches(code, branches, |code|)
      modifies this`addressMap, this`allBlocks, this`heads, this`cfg, allBlocks
      ensures Rep() && k in old(cfg).first
      ensures var r := BlockScan.Continue(code, beyond, old(cfg), k, i);
              cfg == r.0 && Opened(open, r.1)
      ensures fresh(allBlocks - old(allBlocks)) && Extends(old(heads))
    {
      hide RepOf;
      RepFacts();
      open := currentBlock;
      if At(branches, code[i].addr) != {} {
        BranchIns(i, currentBlock, k);
        open := null;
      }
    }

    /** `open` is the block named by `cur`, or null. */
    ghost predicate Opened(open: BasicBlock?, cur: Option<Addr>)
      reads this`heads
    {
      if cur.None? then open == null else cur.value in heads && open == heads[cur.value]
    }

    /** Starts the block at a, which is reached behind a branch. */
    method Open(a: Addr) returns (b: BasicBlock)
      requires Rep()
      modifies this`addressMap, this`allBlocks, this`heads, this`cfg, allBlocks
      ensures Rep() && cfg == old(cfg).Open(a)
      ensures cfg.blockAt[a] in heads && b == heads[cfg.blockAt[a]]
      ensures fresh(allBlocks - old(allBlocks)) && Extends(old(heads))
    {
      b := GetBasicBlockAt(a);
      SetStarting(b, a, cfg.blockAt[a]);
    }

    /** Ends the current block at address `end`, and starts the block at a, a branch target behind it. */
    method FallInto(currentBlock: BasicBlock, end: Addr, a: Addr, ghost k: Addr) returns (b: BasicBlock)
      requires Rep() && k in heads && heads[k] == currentBlock
      modifies this`addressMap, this`allBlocks, this`heads, this`cfg, allBlocks
      ensures Rep() && cfg == old(cfg).FallInto(k, end, a)
      ensures cfg.blockAt[a] in heads && b == heads[cfg.blockAt[a]]
      ensures fresh(allBlocks - old(allBlocks)) && Extends(old(heads))
    {
      hide RepOf, Cfg.SetLast, Cfg.AddEdge;
      b := EndAndLink(currentBlock, end, a, k);
      SetStarting(b, a, cfg.blockAt[a]);
    }

    method EndAndLink(currentBlock: BasicBlock, end: Addr, a: Addr, ghost k: Addr) returns (b: BasicBlock)
      requires Rep() && k in heads && heads[k] == currentBlock
      modifies this`addressMap, this`allBlocks, this`heads, this`cfg, allBlocks
      ensures Rep() && cfg == old(cfg).SetLast(k, end).AddEdge(k, a)
      ensures a in cfg.blockAt && cfg.blockAt[a] in heads && b == heads[cfg.blockAt[a]] && b in allBlocks
      ensures fresh(allBlocks - old(allBlocks)) && Extends(old(heads))
    {
      hide RepOf;
      RepFacts();
      SetEnding(currentBlock, end, k);
      b := AddEdge(currentBlock, a, k);
      RepFacts();
    }

    /** A block starts at instruction i, which is reached behind a branch. */
    method StepClosed(i: nat) returns (open: BasicBlock?)
      requires Rep() && 1 <= i < |code| && MappedBranches(code, branches, |code|)
      modifies this`addressMap, this`allBlocks, this`heads, this`cfg, allBlocks
      ensures old(cfg).Valid() && Rep()
      ensures var r := Step(code, beyond, old(cfg), None, i);
              cfg == r.0 && Opened(open, r.1)
      ensures fresh(allBlocks - old(allBlocks)) && Extends(old(heads))
    {
      hide RepOf;
      RepFacts();
      var currentBlock := Open(code[i].addr);
      open := Continue(i, currentBlock, cfg.blockAt[code[i].addr]);
    }

    /** A block starts at instruction i, a branch target inside the current block. */
    method StepTargeted(i: nat, currentBlock: BasicBlock, ghost k: Addr) returns (open: BasicBlock?)
      requires Rep() && 1 <= i < |code| && MappedBranches(code, branches, |code|)
      requires k in heads && heads[k] == currentBlock && Targeted(code, code[i].addr)
      modifies this`addressMap, this`allBlocks, this`heads, this`cfg, allBlocks
      ensures old(cfg).Valid() && k in old(cfg).first && Rep()
      ensures var r := Step(code, beyond, old(cfg), Some(k), i);
              cfg == r.0 && Opened(open, r.1)
      ensures fresh(allBlocks - old(allBlocks)) && Extends(old(heads))
    {
      hide RepOf;
      RepFacts();
      var newBlock := FallInto(currentBlock, code[i - 1].addr, code[i].addr, k);
      open := Continue(i, newBlock, cfg.blockAt[code[i].addr]);
    }

    /** Scans instruction i. */
    method ScanInstruction(i: nat, currentBlock: BasicBlock?, ghost cur: Option<Addr>) returns (open: BasicBlock?)
      requires Rep() && 1 <= i < |code| && Opened(currentBlock, cur)
      requires MappedBranches(code, branches, |code|) && MappedTargets(code, targets, |code|)
      modifies this`addressMap, this`allBlocks, this`heads, this`cfg, allBlocks
      ensures old(cfg).Valid() && (cur.Some? ==> cur.value in old(cfg).first) && Rep()
      ensures var r := Step(code, beyond, old(cfg), cur, i);
              cfg == r.0 && Opened(open, r.1)
      ensures fresh(allBlocks - old(allBlocks)) && Extends(old(heads))
    {
      TargetingIsTargeted(code, code[i].addr);
      if currentBlock == null {
        open := StepClosed(i);
      } else if At(targets, code[i].addr) != {} {
        open := StepTargeted(i, currentBlock, cur.value);
      } else if At(branches, code[i].addr) != {} {
        BranchIns(i, currentBlock, cur.value);
        open := null;
      } else {
        MapAddress(code[i].addr, currentBlock, cur.value);
        open := currentBlock;
      }
    }

    /** The entrance block, at the routine's first instruction, and the return block. */
    method FirstBlocks() returns (routineHead: BasicBlock, returnBlock: BasicBlock)
      requires Plausible(code, beyond)
      modifies this`addressMap, this`allBlocks, this`heads, this`cfg
      ensures Rep() && cfg == Initial(code[0].addr) && fresh(allBlocks)
      ensures code[0].addr in heads && routineHead == heads[code[0].addr]
      ensures RETURN in heads && returnBlock == heads[RETURN]
    {
      hide RepOf;
      routineHead := new BasicBlock();
      routineHead.startingAddress := code[0].addr;
      returnBlock := new BasicBlock();
      returnBlock.startingAddress := RETURN;
      returnBlock.endingAddress := RETURN;
      var m: Blocks := map[code[0].addr := routineHead, RETURN := returnBlock];
      assert RepOf(m, {routineHead, returnBlock}, m, Initial(code[0].addr)) by {
        RepInitial(code[0].addr, routineHead, returnBlock);
      }
      InstallFirst(m, {routineHead, returnBlock}, Initial(code[0].addr));
    }

    method InstallFirst(m: Blocks, all: set<BasicBlock>, ghost c: Cfg)
      requires RepOf(m, all, m, c)
      modifies this`addressMap, this`allBlocks, this`heads, this`cfg
      ensures Rep() && addressMap == heads == m && allBlocks == all && cfg == c
    {
      addressMap := m;
      allBlocks := all;
      heads := m;
      cfg := c;
    }

    /** Groups the instructions into blocks and links them. */
    method BlockBuilder()
      requires Plausible(code, beyond)
      requires MappedBranches(code, branches, |code|) && MappedTargets(code, targets, |code|)
      modifies this`addressMap, this`allBlocks, this`heads, this`cfg, this`EntranceNode, this`ReturnNode
      ensures Rep() && cfg == Scan(code, beyond) && fresh(allBlocks)
      ensures RETURN in heads && ReturnNode == heads[RETURN]
      ensures code[0].addr in heads && EntranceNode == heads[code[0].addr]
    {
      hide RepOf, ScanUpTo, MappedBranches, MappedTargets;
      var routineHead, returnBlock := FirstBlocks();
      var currentBlock := ScanAll(routineHead);
      RepFacts();
      if currentBlock != null {
        SetEnding(currentBlock, code[|code| - 1].addr, ScanUpTo(code, beyond, |code|).1.value);
      }
      EntranceNode := routineHead;
      ReturnNode := returnBlock;
    }

    /** The loop over the instructions behind the first. */
    method ScanAll(routineHead: BasicBlock) returns (currentBlock: BasicBlock?)
      requires code != [] && Rep() && cfg == Initial(code[0].addr)
      requires code[0].addr in heads && routineHead == heads[code[0].addr]
      requires MappedBranches(code, branches, |code|) && MappedTargets(code, targets, |code|)
      modifies this`addressMap, this`allBlocks, this`heads, this`cfg, allBlocks
      ensures Rep() && cfg == ScanUpTo(code, beyond, |code|).0
      ensures Opened(currentBlock, ScanUpTo(code, beyond, |code|).1)
      ensures fresh(allBlocks - old(allBlocks)) && Extends(old(heads))
    {
      hide RepOf, Step, ScanUpTo, MappedBranches, MappedTargets;
      currentBlock := routineHead;
      ghost var r := (cfg, Some(code[0].addr));
      assert r == ScanUpTo(code, beyond, 1) by { ScanUpToFirst(code, beyond); }
      for i := 1 to |code|
        invariant r == ScanUpTo(code, beyond, i)
        invariant Rep() && cfg == r.0 && Opened(currentBlock, r.1)
        invariant fresh(allBlocks - old(allBlocks)) && Extends(old(heads))
      {
        RepFacts();
        ScanUpToNext(code, beyond, r, i);
        currentBlock := ScanInstruction(i, currentBlock, r.1);
        r := ScanUpTo(code, beyond, i + 1);
      }
    }
  }
}
