/** The linked lists of the reverse index. */
module TagLists {
  import opened TagIndex
  import opened Bitsets

  class MemList {
    var memAddress: nat
    var isCleared: bool
    var next: MemList?

    constructor ()
      ensures next == null
    {
      memAddress, isCleared, next := 0, false, null;
    }
  }

  /** The nodes of a list in order: the records, then the sentinel tail, whose own fields do not count. */
  ghost predicate Holds(ns: seq<MemList>, rs: Records)
    reads ns
  {
    && |ns| == |rs| + 1
    && (forall i, j | 0 <= i < j < |ns| :: ns[i] != ns[j])
    && (forall i, j | 0 <= i < |rs| && j == i + 1 :: ns[i].next == ns[j])
    && ns[|rs|].next == null
    && (forall i | 0 <= i < |rs| :: rs[i] == Rec(ns[i].memAddress, ns[i].isCleared))
  }

  /** Fills the sentinel and hangs a new one behind it. */
  method Append(tail: MemList, a: nat, cleared: bool, ghost ns: seq<MemList>, ghost rs: Records)
    returns (sentinel: MemList)
    requires Holds(ns, rs) && tail == ns[|rs|]
    modifies tail
    ensures fresh(sentinel) && Holds(ns + [sentinel], rs + [Rec(a, cleared)])
    ensures tail.next == sentinel
  {
    tail.memAddress := a;
    tail.isCleared := cleared;
    tail.next := new MemList();
    sentinel := tail.next;
    sentinel.next := null;
  }

  /** The walk for a mark that the written taint holds: flags the offsets of all recorded addresses, then
      appends the addresses of the range that are not flagged. */
  method AppendTagged(head: MemList, start: nat, size: nat, ghost ns: seq<MemList>, ghost rs: Records)
    returns (ghost ns': seq<MemList>)
    requires Range(start, size) && Holds(ns, rs) && ns[0] == head
    modifies ns
    ensures Holds(ns', Tagged(rs, start, size)) && ns'[0] == head
    ensures forall n | n in ns' :: n in ns || fresh(n)
  {
    var addrFlag, elementToAdd := FlagOffsets(head, start, size, ns, rs);
    ns' := ns;
    ghost var cur := rs;
    for addr := start to start + size
      invariant Holds(ns', cur) && ns'[0] == head && elementToAdd == ns'[|cur|]
      invariant cur + Missing(rs, start, addr, start + size) == Tagged(rs, start, size)
      invariant forall n | n in ns' :: n in ns || fresh(n)
      invariant forall i | 0 <= i < size :: addrFlag[i] <==> Flagged(rs, start, start + i)
    {
      hide Flagged, Range, Holds;
      assert addrFlag[addr - start] <==> Flagged(rs, start, addr);
      ghost var rest := Missing(rs, start, addr + 1, start + size);
      if addrFlag[addr - start] {
        assert [] + rest == rest;
        continue;
      }
      assert cur + ([Rec(addr, false)] + rest) == cur + [Rec(addr, false)] + rest;
      ghost var tail := elementToAdd;
      assert tail in ns';
      elementToAdd := Append(elementToAdd, addr, false, ns', cur);
      ns', cur := ns' + [elementToAdd], cur + [Rec(addr, false)];
    }
    elementToAdd.next := null;
    assert cur + [] == cur;
  }

  method FlagOffsets(head: MemList, start: nat, size: nat, ghost ns: seq<MemList>, ghost rs: Records)
    returns (addrFlag: array<bool>, tail: MemList)
    requires Range(start, size) && Holds(ns, rs) && ns[0] == head
    ensures fresh(addrFlag) && addrFlag.Length == size && tail == ns[|rs|]
    ensures forall i | 0 <= i < size :: addrFlag[i] <==> Flagged(rs, start, start + i)
  {
    addrFlag := new bool[size](_ => false);
    tail := head;
    ghost var k := 0;
    while tail.next != null
      invariant 0 <= k <= |rs| && tail == ns[k] && (k < |rs| ==> tail.next == ns[k + 1])
      invariant forall i | 0 <= i < size :: addrFlag[i] <==> exists j :: 0 <= j < k && Offset(rs[j].addr, start) == i
      decreases |rs| - k
    {
      hide Offset;
      var i := Offset(tail.memAddress, start);
      if 0 <= i < ToInt(size) {
        addrFlag[i] := true;
      }
      tail, k := tail.next, k + 1;
    }
  }

  /** Whether the last later record for the same address is cleared, and the sentinel. */
  method FindLater(elementToAdd: MemList, ghost ns: seq<MemList>, ghost rs: Records, ghost i: nat)
    returns (flag: bool, element: MemList)
    requires Holds(ns, rs) && i < |rs| && elementToAdd == ns[i] && !elementToAdd.isCleared
    ensures flag == LaterFlag(rs, rs[i].addr, i, |rs|) && element == ns[|rs|]
  {
    flag, element := elementToAdd.isCleared, elementToAdd;
    ghost var j := i;
    while element.next != null
      invariant i <= j <= |rs| && element == ns[j] && (j < |rs| ==> element.next == ns[j + 1])
      invariant flag == LaterFlag(rs, rs[i].addr, i, if j < |rs| then j + 1 else |rs|)
      decreases |rs| - j
    {
      element, j := element.next, j + 1;
      if element.next != null && element.memAddress == elementToAdd.memAddress {
        flag := element.isCleared;
      }
    }
  }

  /** The walk for a mark that the written taint does not hold: appends a cleared record for every
      recorded address of the range that has none. */
  method AppendCleared(head: MemList, start: nat, size: nat, ghost ns: seq<MemList>, ghost rs: Records)
    returns (ghost ns': seq<MemList>)
    requires Holds(ns, rs) && ns[0] == head
    modifies ns
    ensures Holds(ns', ClearFrom(rs, start, size, 0)) && ns'[0] == head
    ensures forall n | n in ns' :: n in ns || fresh(n)
  {
    var elementToAdd := head;
    ns' := ns;
    ghost var cur, i := rs, 0;
    while elementToAdd.next != null
      invariant Holds(ns', cur) && ns'[0] == head && 0 <= i <= |cur| && elementToAdd == ns'[i]
      invariant ClearFrom(cur, start, size, i) == ClearFrom(rs, start, size, 0)
      invariant forall n | n in ns' :: n in ns || fresh(n)
      decreases Ahead(cur, i)
    {
      assert i < |cur|;
      ClearingDecreases(cur, start, size, i);
      hide LaterFlag, Ahead;
      if start <= elementToAdd.memAddress < start + size && !elementToAdd.isCleared {
        var flag, element := FindLater(elementToAdd, ns', cur, i);
        if !flag {
          assert element in ns';
          var sentinel := Append(element, elementToAdd.memAddress, true, ns', cur);
          ns', cur := ns' + [sentinel], cur + [Rec(cur[i].addr, true)];
        }
      }
      elementToAdd, i := elementToAdd.next, i + 1;
    }
  }

  /** The lists of all marks, created by the first update. */
  class TagMemory {
    const marks: nat
    var isInitialized: bool
    var tagMemoryMap: map<nat, MemList>
    ghost var nodes: seq<seq<MemList>>
    ghost var records: seq<Records>
    ghost var owned: set<MemList>

    ghost predicate Valid()
      reads this, owned
    {
      && |records| == marks
      && (if isInitialized then Lists() else forall t | 0 <= t < marks :: records[t] == [])
    }

    /** Every mark has a list, and no node is in two lists. */
    ghost predicate Lists()
      requires |records| == marks
      reads this, owned
    {
      && |nodes| == marks
      && (forall t: nat | t < marks :: t in tagMemoryMap && InList(t))
      && (forall t, u, n | 0 <= t < u < marks && n in nodes[t] :: n !in nodes[u])
    }

    ghost predicate InList(t: nat)
      requires t < marks == |nodes| == |records| && t in tagMemoryMap
      reads this, owned
    {
      && (forall n | n in nodes[t] :: n in owned)
      && Holds(nodes[t], records[t])
      && nodes[t][0] == tagMemoryMap[t]
    }

    constructor (marks: nat)
      ensures Valid() && this.marks == marks && owned == {}
      ensures forall t | 0 <= t < marks :: records[t] == []
    {
      this.marks := marks;
      isInitialized, tagMemoryMap := false, map[];
      nodes, owned := [], {};
      records := seq(marks, _ => []);
    }

    method Initialize()
      requires Valid() && !isInitialized
      modifies this
      ensures Valid() && isInitialized && records == old(records) && fresh(owned - old(owned))
    {
      tagMemoryMap, nodes := map[], [];
      for counter := 0 to marks
        invariant |nodes| == counter && records == old(records) && fresh(owned - old(owned))
        invariant forall t: nat | t < counter ::
                    && t in tagMemoryMap && nodes[t] == [tagMemoryMap[t]]
                    && tagMemoryMap[t] in owned && tagMemoryMap[t].next == null
        invariant forall t, u | 0 <= t < u < counter :: nodes[t][0] != nodes[u][0]
      {
        var list := new MemList();
        tagMemoryMap, nodes, owned := tagMemoryMap[counter := list], nodes + [[list]], owned + {list};
      }
      isInitialized := true;
    }

    /** The update of one list. */
    method UpdateList(t: nat, start: nat, size: nat, tainted: bool)
      requires Valid() && isInitialized && t < marks && Range(start, size)
      modifies this, owned
      ensures Valid() && isInitialized && fresh(owned - old(owned))
      ensures records == old(records)[t := Updated(old(records[t]), start, size, tainted)]
    {
      hide Holds, Tagged, ClearFrom;
      ghost var ns;
      assert InList(t);
      if tainted {
        ns := AppendTagged(tagMemoryMap[t], start, size, nodes[t], records[t]);
      } else {
        ns := AppendCleared(tagMemoryMap[t], start, size, nodes[t], records[t]);
      }
      ghost var was := nodes;
      nodes := nodes[t := ns];
      records := records[t := Updated(records[t], start, size, tainted)];
      owned := owned + set n | n in ns;
      forall u: nat | u < marks ensures u in tagMemoryMap && InList(u) {
        if u != t {
          assert old(InList(u));
          assert forall i | 0 <= i < |was[u]| :: was[u][i] in was[u] && was[u][i] !in was[t];
          assert unchanged(was[u]);
        }
      }
    }

    /** Updates every mark's list for a write of the taint `written` to a memory range. */
    method Update(start: nat, size: nat, written: Bitset)
      requires Valid() && written.Valid() && written.nbits == marks && Range(start, size)
      modifies this, owned
      ensures Valid() && fresh(owned - old(owned))
      ensures forall t | 0 <= t < marks ::
                records[t] == Updated(old(records)[t], start, size, t in old(written.Marks()))
    {
      if !isInitialized {
        Initialize();
      }
      for t := 0 to marks
        invariant Valid() && isInitialized && fresh(owned - old(owned))
        invariant written.Valid() && written.Marks() == old(written.Marks())
        invariant forall u | 0 <= u < t ::
                    records[u] == Updated(old(records)[u], start, size, u in old(written.Marks()))
        invariant forall u | t <= u < marks :: records[u] == old(records)[u]
      {
        hide Updated, Range;
        var tainted := written.TestBit(t);
        UpdateList(t, start, size, tainted);
      }
    }
  }
}
