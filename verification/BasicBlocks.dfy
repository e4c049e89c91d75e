/** The blocks of a routine's control-flow graph, with their post-dominance pointers.

    Every method takes the current tree of pointers as a ghost value, and says what the pointers and the
    descendant maps hold afterwards.  The maps are not required to agree with the tree. */
module BasicBlocks {
  import opened PostDominance
  import opened DescendantRows

  /** The blocks that take part in the pass, by starting address. */
  type Blocks = map<Addr, BasicBlock>

  class BasicBlock {
    var startingAddress: Addr
    var endingAddress: Addr
    var predecessors: set<BasicBlock>
    var PostDominator: BasicBlock?
    var isPostDominated: bool
    var postDominated: map<Addr, BasicBlock?>

    constructor ()
      ensures startingAddress == 0 && endingAddress == 0 && predecessors == {}
      ensures PostDominator == null && !isPostDominated && postDominated == map[]
    {
      startingAddress, endingAddress, predecessors := 0, 0, {};
      PostDominator, isPostDominated, postDominated := null, false, map[];
    }

    ghost predicate In(G: Blocks)
      reads this`startingAddress
    {
      startingAddress in G && G[startingAddress] == this
    }

    /** A lookup in the descendant map by `operator[]`, which stores NULL under a key that is not there. */
    method LookUp(key: Addr, ghost G: Blocks) returns (b: BasicBlock?)
      requires In(G) && Addressed(G) && Named(G)
      modifies this`postDominated
      ensures Named(G) && (b != null <==> Counts(old(Table(G))[startingAddress], key))
      ensures Table(G) == old(Table(G))[startingAddress := Ask(old(Table(G))[startingAddress], key)]
    {
      ghost var T, m := Table(G), postDominated;
      if key !in postDominated {
        postDominated := postDominated[key := null];
      }
      b := postDominated[key];
      RowOfPut(m, key, null);
      assert RowOf(postDominated) == Ask(T[startingAddress], key);
    }

    /** Climbs to the first block that counts the sibling, or to the return block. */
    method GetCommonPostDominator(sibling: BasicBlock, ghost G: Blocks, ghost f: Forest)
      returns (r: BasicBlock)
      requires Pointers(G, f) && Named(G) && In(G) && startingAddress in f.rank
      modifies G.Values`postDominated
      ensures Pointers(G, f) && Named(G)
      ensures var stops := Counting(old(Table(G)), sibling.startingAddress);
              && r.In(G) && r.startingAddress == Found(f, stops, startingAddress)
              && Table(G) == AskedRows(f, old(Table(G)), startingAddress, sibling.startingAddress)
      decreases f.rank[startingAddress]
    {
      hide Named, AskAlong, Climbed, Found, Counting, Counts;
      ghost var T, p := Table(G), sibling.startingAddress;
      var child := LookUp(sibling.startingAddress, G);
      AskStep(f, T, startingAddress, p);
      if child != null {
        return this;
      } else if startingAddress == RETURN {
        return this;
      } else {
        r := PostDominator.GetCommonPostDominator(sibling, G, f);
      }
    }

    method SetPostDominator(block: BasicBlock, ghost G: Blocks, ghost parent: map<Addr, Addr>)
      requires Linked(G, parent) && In(G) && block.In(G)
      modifies this`isPostDominated, this`PostDominator
      ensures Linked(G, parent[startingAddress := block.startingAddress])
      ensures Table(G) == old(Table(G)) && (old(Named(G)) ==> Named(G))
    {
      isPostDominated := true;
      PostDominator := block;
    }

    method NoteDescendant(newChild: BasicBlock, ghost G: Blocks)
      requires In(G) && Addressed(G) && Named(G) && newChild.In(G)
      modifies this`postDominated
      ensures Named(G)
      ensures var T := old(Table(G));
              Table(G) == T[startingAddress := Put(T[startingAddress], newChild.startingAddress)]
    {
      ghost var T := Table(G);
      RowOfPut(postDominated, newChild.startingAddress, newChild);
      postDominated := postDominated[newChild.startingAddress := newChild];
      assert RowOf(postDominated) == Put(T[startingAddress], newChild.startingAddress);
      hide RowOf;
    }

    /** `up` is the chain from this block to the return block. */
    method PassDownPostDominanceInfo(newChild: BasicBlock, ghost G: Blocks, ghost f: Forest, ghost up: set<Addr>)
      requires Pointers(G, f) && Named(G) && In(G) && startingAddress in f.rank && up == f.Up(startingAddress)
      requires newChild.In(G)
      modifies G.Values`postDominated
      ensures Pointers(G, f) && Named(G)
      ensures Table(G) == PutAlong(old(Table(G)), up, newChild.startingAddress)
      decreases f.rank[startingAddress]
    {
      f.UpStep(startingAddress);
      PutStep(Table(G), up, startingAddress, newChild.startingAddress);
      NoteDescendant(newChild, G);
      if startingAddress != RETURN {
        PostDominator.PassDownPostDominanceInfo(newChild, G, f, up - {startingAddress});
      } else {
        PutNone(Table(G), newChild.startingAddress);
      }
    }

    method EraseDescendants(deletableBlocks: map<Addr, BasicBlock?>, deletableBlocksParent: Addr, ghost G: Blocks)
      requires In(G) && Addressed(G) && Named(G)
      modifies this`postDominated
      ensures Named(G)
      ensures var T := old(Table(G));
              Table(G) == T[startingAddress := T[startingAddress] - ({deletableBlocksParent} + deletableBlocks.Keys)]
    {
      ghost var gone := {deletableBlocksParent} + deletableBlocks.Keys;
      RowOfErase(postDominated, gone);
      ghost var row := Table(G)[startingAddress] - gone;
      postDominated := postDominated - {deletableBlocksParent};
      var keys := deletableBlocks.Keys;
      while keys != {}
        invariant keys <= deletableBlocks.Keys
        invariant postDominated ==
                  old(postDominated) - ({deletableBlocksParent} + (deletableBlocks.Keys - keys))
      {
        var k :| k in keys;
        postDominated := postDominated - {k};
        keys := keys - {k};
      }
      assert deletableBlocks.Keys - keys == deletableBlocks.Keys;
      assert RowOf(postDominated) == row;
      hide RowOf;
    }

    /** Erases the keys of `deletableBlocks` and their parent from this block's map and from those above it,
        up to the block that starts at `lastNodesStarting`, if that is above. */
    method DeleteDownPostDominanceInfo(deletableBlocks: map<Addr, BasicBlock?>, deletableBlocksParent: Addr,
                                       lastNodesStarting: Addr, ghost G: Blocks, ghost f: Forest)
      requires Pointers(G, f) && Named(G) && In(G) && startingAddress in f.rank
      modifies G.Values`postDominated
      ensures Pointers(G, f) && Named(G)
      ensures Table(G) ==
              EraseAlong(old(Table(G)), Passed(f, startingAddress, lastNodesStarting),
                         {deletableBlocksParent} + deletableBlocks.Keys)
      decreases f.rank[startingAddress]
    {
      hide Named, EraseAlong, Passed;
      ghost var gone := {deletableBlocksParent} + deletableBlocks.Keys;
      EraseStep(f, Table(G), startingAddress, lastNodesStarting, gone);
      if startingAddress != lastNodesStarting {
        EraseDescendants(deletableBlocks, deletableBlocksParent, G);
        if PostDominator != null {
          PostDominator.DeleteDownPostDominanceInfo(deletableBlocks, deletableBlocksParent, lastNodesStarting, G, f);
        }
      }
    }

    /** The branch for a predecessor met for the first time. */
    method AttachPredecessor(predecessor: BasicBlock, ghost G: Blocks, ghost f: Forest)
      requires Pointers(G, f) && Named(G) && In(G) && startingAddress in f.rank
      requires predecessor.In(G) && predecessor.startingAddress !in f.rank
      modifies G.Values`postDominated, predecessor`PostDominator, predecessor`isPostDominated
      ensures Pointers(G, f.Attach(predecessor.startingAddress, startingAddress)) && Named(G)
      ensures Table(G) == PutAlong(old(Table(G)), f.Up(startingAddress), predecessor.startingAddress)
    {
      hide Table, Named, PutAlong, Forest.Up;
      ghost var c, p := startingAddress, predecessor.startingAddress;
      ghost var f' := f.Attach(p, c);
      f.AttachUp(p, c, c);
      predecessor.SetPostDominator(this, G, f.parent);
      PassDownPostDominanceInfo(predecessor, G, f', f.Up(c));
    }

    /** Finds the new parent of a predecessor that already has one, and erases the keys of the predecessor's
        map from the maps up to the new parent. */
    method FindNewParent(predecessor: BasicBlock, competingSibling: BasicBlock, ghost G: Blocks, ghost f: Forest)
      returns (newPostDominator: BasicBlock)
      requires Pointers(G, f) && Named(G) && In(G) && startingAddress in f.rank
      requires predecessor.In(G) && predecessor.startingAddress in f.parent && competingSibling.In(G)
      requires competingSibling.startingAddress == f.parent[predecessor.startingAddress]
      modifies G.Values`postDominated
      ensures Pointers(G, f) && Named(G)
      ensures newPostDominator.In(G)
      ensures newPostDominator.startingAddress ==
              NewParent(f, old(Table(G)), startingAddress, predecessor.startingAddress)
      ensures predecessor.startingAddress in old(Table(G))
      ensures Table(G) == MovedRows(f, old(Table(G)), startingAddress, predecessor.startingAddress)
    {
      hide AskedRows, EraseAlong, Passed, Found, Counting, Linked, Named, Table;
      KeysOfRow(G, predecessor);
      newPostDominator := GetCommonPostDominator(predecessor, G, f);
      KeysOfRow(G, predecessor);
      competingSibling.DeleteDownPostDominanceInfo(predecessor.postDominated, predecessor.startingAddress,
                                                   newPostDominator.startingAddress, G, f);
    }

    /** The branch for a predecessor that already has a parent. */
    method MovePredecessor(predecessor: BasicBlock, ghost G: Blocks, ghost f: Forest)
      requires Pointers(G, f) && Named(G) && In(G) && startingAddress in f.rank
      requires predecessor.In(G) && predecessor.startingAddress in f.parent
      modifies G.Values`postDominated, predecessor`PostDominator, predecessor`isPostDominated
      ensures var c, p, T := startingAddress, predecessor.startingAddress, old(Table(G));
              && Linked(G, f.parent[p := NewParent(f, T, c, p)])
              && Table(G) == MovedRows(f, T, c, p)
      ensures Named(G)
    {
      hide MovedRows, NewParent, Named, Table;
      var competingSibling := predecessor.PostDominator;
      var newPostDominator := FindNewParent(predecessor, competingSibling, G, f);
      predecessor.SetPostDominator(newPostDominator, G, f.parent);
    }

    /** Visits the edge from `predecessor` to this block, from any tree of pointers and any maps. */
    method AddPredecessorAsPostDominated(predecessor: BasicBlock, ghost G: Blocks, ghost f: Forest)
      requires Pointers(G, f) && Named(G) && In(G) && startingAddress in f.rank
      requires predecessor.In(G) && predecessor.startingAddress != RETURN
      modifies G.Values`postDominated, predecessor`PostDominator, predecessor`isPostDominated
      ensures var c, p, T := startingAddress, predecessor.startingAddress, old(Table(G));
              && Linked(G, f.parent[p := NewParent(f, T, c, p)])
              && Table(G) == VisitedRows(f, T, c, p)
      ensures Named(G)
    {
      hide MovedRows, Found, PutAlong;
      if !predecessor.isPostDominated {
        AttachPredecessor(predecessor, G, f);
      } else {
        MovePredecessor(predecessor, G, f);
      }
    }
  }

  ghost predicate Addressed(G: Blocks)
    reads G.Values`startingAddress
  {
    forall a | a in G :: G[a].startingAddress == a
  }

  /** Flags and PostDominator pointers are those of `parent`; other blocks have none. */
  ghost predicate Linked(G: Blocks, parent: map<Addr, Addr>)
    reads G.Values`startingAddress, G.Values`PostDominator, G.Values`isPostDominated
  {
    && Addressed(G)
    && (forall a | a in parent :: a in G && parent[a] in G)
    && (forall a | a in G :: G[a].isPostDominated <==> a in parent)
    && (forall a | a in G :: G[a].PostDominator == if a in parent then G[parent[a]] else null)
  }

  /** The pointers form tree f. */
  ghost predicate Pointers(G: Blocks, f: Forest)
    reads G.Values`startingAddress, G.Values`PostDominator, G.Values`isPostDominated
  {
    f.Valid() && f.rank.Keys <= G.Keys && Linked(G, f.parent)
  }

  /** A block is only ever stored under its own address. */
  ghost predicate Named(G: Blocks)
    reads G.Values`postDominated
  {
    forall a, k | a in G && k in G[a].postDominated ::
      G[a].postDominated[k] != null ==> k in G && G[a].postDominated[k] == G[k]
  }

  ghost function RowOf(m: map<Addr, BasicBlock?>): Row {
    map k | k in m :: m[k] != null
  }

  lemma RowOfPut(m: map<Addr, BasicBlock?>, k: Addr, b: BasicBlock?)
    ensures RowOf(m[k := b]) == RowOf(m)[k := b != null]
  {
  }

  lemma RowOfErase(m: map<Addr, BasicBlock?>, gone: set<Addr>)
    ensures RowOf(m - gone) == RowOf(m) - gone
  {
  }

  /** All descendant maps, by block. */
  ghost function Table(G: Blocks): Rows
    reads G.Values`postDominated
  {
    map a | a in G :: RowOf(G[a].postDominated)
  }

  lemma KeysOfRow(G: Blocks, b: BasicBlock)
    requires b.In(G)
    ensures b.startingAddress in Table(G) && Table(G)[b.startingAddress].Keys == b.postDominated.Keys
  {
  }

  /** One step of the climb from c. */
  lemma AskStep(f: Forest, T: Rows, c: Addr, p: Addr)
    requires f.Valid() && c in f.rank && c in T
    ensures var T', stops := T[c := Ask(T[c], p)], Counting(T, p);
            && Counting(T', p) == stops
            && (c in stops <==> Counts(T[c], p))
            && (c in stops || c == RETURN ==>
                  Found(f, stops, c) == c && AskAlong(T, Climbed(f, stops, c), p) == T')
            && (c !in stops && c != RETURN ==>
                  && Found(f, stops, c) == Found(f, stops, f.parent[c])
                  && AskAlong(T, Climbed(f, stops, c), p) == AskAlong(T', Climbed(f, stops, f.parent[c]), p))
  {
  }

  lemma PutStep(T: Rows, up: set<Addr>, a: Addr, p: Addr)
    requires a in T && a in up
    ensures PutAlong(T[a := Put(T[a], p)], up - {a}, p) == PutAlong(T, up, p)
  {
  }

  lemma PutNone(T: Rows, p: Addr)
    ensures PutAlong(T, {}, p) == T
  {
  }

  /** One step of the erasing walk from a up to n. */
  lemma EraseStep(f: Forest, T: Rows, a: Addr, n: Addr, gone: set<Addr>)
    requires f.Valid() && a in f.rank && a in T
    ensures var T' := T[a := T[a] - gone];
            && (a == n ==> EraseAlong(T, Passed(f, a, n), gone) == T)
            && (a != n && a !in f.parent ==> EraseAlong(T, Passed(f, a, n), gone) == T')
            && (a != n && a in f.parent ==>
                  EraseAlong(T, Passed(f, a, n), gone) == EraseAlong(T', Passed(f, f.parent[a], n), gone))
  {
    if a != n && a in f.parent {
      PassedAbove(f, f.parent[a], n);
      f.UpStep(a);
    }
  }

  lemma {:induction false} PassedAbove(f: Forest, q: Addr, n: Addr)
    requires f.Valid() && q in f.rank
    ensures Passed(f, q, n) <= f.Up(q)
    decreases f.rank[q]
  {
    if q != n && q in f.parent {
      PassedAbove(f, f.parent[q], n);
    }
  }
}
