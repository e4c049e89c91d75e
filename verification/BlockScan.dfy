/** The second pass over a routine's instructions, as a function on values.

    A block is named by the address it was created for.  `blockAt` is the address map; `first` and
    `last` hold each block's starting and ending address; `edges` holds its predecessors. */
module BlockScan {
  import opened PostDominance
  import opened Routine

  datatype Option<T> = None | Some(value: T)

  datatype Cfg = Cfg(blockAt: map<Addr, Addr>, first: map<Addr, Addr>, last: map<Addr, Addr>, edges: Edges) {

    /** A block was created for address k. */
    ghost predicate Created(k: Addr) {
      k in first
    }

    ghost predicate Valid() {
      && first.Keys == last.Keys
      && (forall a | a in blockAt :: blockAt[a] in first)
      && (forall k | Created(k) :: k in blockAt)
      && (forall e | e in edges :: e.0 in first && e.1 in first)
    }

    /** Creates a block for an address that has none. */
    function Lookup(a: Addr): (c: Cfg) {
      if a in blockAt then this
      else Cfg(blockAt[a := a], first[a := 0], last[a := 0], edges)
    }

    /** Makes block k a predecessor of the block at a. */
    function AddEdge(k: Addr, a: Addr): Cfg {
      var c := Lookup(a);
      c.(edges := c.edges + {(k, c.blockAt[a])})
    }

    function SetFirst(k: Addr, a: Addr): Cfg {
      this.(first := first[k := a])
    }

    function SetLast(k: Addr, a: Addr): Cfg {
      this.(last := last[k := a])
    }

    /** Starts the block at a. */
    function Open(a: Addr): Cfg {
      var c := Lookup(a);
      c.SetFirst(c.blockAt[a], a)
    }

    /** Ends block k at its last instruction, and starts the block at a behind it. */
    function FallInto(k: Addr, end: Addr, a: Addr): Cfg {
      var c := SetLast(k, end).AddEdge(k, a);
      c.SetFirst(c.blockAt[a], a)
    }

    function MapAddress(a: Addr, k: Addr): Cfg {
      this.(blockAt := blockAt[a := k])
    }

    /** The edges out of block k, which ends in a branch with targets bs. */
    ghost function Branch(k: Addr, bs: set<Addr>, next: Addr): Cfg
      requires k in first && bs != {}
    {
      var m := Least(bs);
      if m == CALL || m == INDIRECT_CALL then AddEdge(k, next)
      else if m == RETURN then AddEdge(k, RETURN)
      else if m == INDIRECT_BRANCH then this
      else if bs != {m} then AddEdge(k, m).AddEdge(k, Least(bs - {m}))
      else if m == first[k] then AddEdge(k, m).AddEdge(k, next)
      else AddEdge(k, m)
    }
  }

  /** Ends block k at instruction i, a branch. */
  ghost function BranchIns(code: seq<Ins>, beyond: Addr, c: Cfg, k: Addr, i: nat): Cfg
    requires i < |code| && k in c.first && BranchSet(code[i]) != {}
  {
    c.SetLast(k, code[i].addr).MapAddress(code[i].addr, k).Branch(k, BranchSet(code[i]), NextAddr(code, i, beyond))
  }

  /** Instruction i lies in block k: a branch closes the block. */
  ghost function Continue(code: seq<Ins>, beyond: Addr, c: Cfg, k: Addr, i: nat): (Cfg, Option<Addr>)
    requires i < |code| && k in c.first
  {
    if BranchSet(code[i]) != {} then (BranchIns(code, beyond, c, k, i), None) else (c, Some(k))
  }

  /** Scans instruction i, with `cur` the open block. */
  ghost function Step(code: seq<Ins>, beyond: Addr, c: Cfg, cur: Option<Addr>, i: nat): (Cfg, Option<Addr>)
    requires c.Valid() && 1 <= i < |code| && (cur.Some? ==> cur.value in c.first)
  {
    var a := code[i].addr;
    if cur.None? then
      var d := c.Open(a);
      Continue(code, beyond, d, d.blockAt[a], i)
    else if Targeted(code, a) then
      var d := c.FallInto(cur.value, code[i - 1].addr, a);
      Continue(code, beyond, d, d.blockAt[a], i)
    else if BranchSet(code[i]) != {} then
      (BranchIns(code, beyond, c, cur.value, i), None)
    else
      (c.MapAddress(a, cur.value), cur)
  }

  function Initial(a: Addr): Cfg {
    Cfg(map[a := a, RETURN := RETURN], map[a := a, RETURN := RETURN], map[a := 0, RETURN := RETURN], {})
  }

  // ---------------------------------------------------------------- what every step keeps

  /** The first n instructions are in the blocks of the layout; every other address in the map is one a
      block was created for, and an instruction ahead is in the map only if a block must start there. */
  ghost predicate Known(L: Layout, c: Cfg, n: nat)
    requires L.Valid() && n <= |L.addr|
  {
    && (forall j | 0 <= j < n :: L.addr[j] in c.blockAt && c.blockAt[L.addr[j]] == L.start[j])
    && (forall a | a in c.blockAt && c.blockAt[a] != a :: exists j :: 0 <= j < n && L.addr[j] == a && !L.head[j])
    && (forall a | a in c.first :: a in c.blockAt && c.blockAt[a] == a)
    && (forall k | n <= k < |L.addr| && L.addr[k] in c.blockAt :: L.targeted[k] || (k == n && L.closed[k]))
  }

  /** Blocks carry their first addresses, and complete ones their last. */
  ghost predicate Stamped(L: Layout, c: Cfg, n: nat)
    requires L.Valid() && n <= |L.addr|
  {
    && (forall j | 0 <= j < n :: L.start[j] in c.first && c.first[L.start[j]] == L.start[j])
    && (forall j | 0 <= j < n - 1 && L.head[j + 1] :: L.start[j] in c.last && c.last[L.start[j]] == L.addr[j])
    && RETURN in c.first && c.first[RETURN] == RETURN
  }

  ghost predicate Ended(L: Layout, c: Cfg, n: nat)
    requires L.Valid() && 1 <= n <= |L.addr|
  {
    L.start[n - 1] in c.last && c.last[L.start[n - 1]] == L.addr[n - 1]
  }

  ghost predicate Scanned(code: seq<Ins>, beyond: Addr, L: Layout, c: Cfg, cur: Option<Addr>, n: nat) {
    && IsLayout(code, L) && 1 <= n <= |code|
    && c.Valid() && Known(L, c, n) && Stamped(L, c, n)
    && (if L.closed[n] then cur.None? && Ended(L, c, n) else cur == Some(L.start[n - 1]))
    && c.edges == EdgesUpTo(code, L, n, beyond)
  }

  /** t can only be the first address of a block. */
  ghost predicate OnlyStarts(L: Layout, n: nat, t: Addr)
    requires L.Valid()
  {
    forall j | 0 <= j < |L.addr| && L.addr[j] == t :: L.head[j] && (L.targeted[j] || (j == n && L.closed[j]))
  }

  lemma LookupValid(c: Cfg, a: Addr)
    requires c.Valid()
    ensures c.Lookup(a).Valid()
    ensures a !in c.blockAt ==> a !in c.first
  {
    assert c.Created(a) ==> a in c.blockAt;
    assert forall k | k != a :: c.Lookup(a).Created(k) == c.Created(k);
  }

  /** Looking up an address where only blocks can start disturbs nothing. */
  lemma LookupKeeps(L: Layout, c: Cfg, n: nat, t: Addr)
    requires L.Valid() && n <= |L.addr| && c.Valid() && Known(L, c, n) && OnlyStarts(L, n, t)
    ensures var d := c.Lookup(t);
            d.Valid() && Known(L, d, n) && d.blockAt[t] == t
  {
  }

  lemma LookupStamped(L: Layout, c: Cfg, n: nat, t: Addr)
    requires L.Valid() && 1 <= n <= |L.addr| && c.Valid() && Known(L, c, n) && Stamped(L, c, n)
    ensures Stamped(L, c.Lookup(t), n) && (Ended(L, c, n) ==> Ended(L, c.Lookup(t), n))
  {
    hide Layout.Valid;
    if t !in c.blockAt {
      assert t !in c.first by { LookupValid(c, t); }
    }
  }

  lemma AddEdgeKeeps(L: Layout, c: Cfg, n: nat, k: Addr, t: Addr)
    requires L.Valid() && 1 <= n <= |L.addr| && c.Valid() && k in c.first
    requires Known(L, c, n) && Stamped(L, c, n) && OnlyStarts(L, n, t)
    ensures var d := c.AddEdge(k, t);
            && d.Valid() && Known(L, d, n) && Stamped(L, d, n) && (Ended(L, c, n) ==> Ended(L, d, n))
            && k in d.first && d.first[k] == c.first[k]
            && t in d.blockAt && d.blockAt[t] == t && t in d.first
            && d.edges == c.edges + {(k, t)}
  {
    hide Known, Stamped, Ended, OnlyStarts, Layout.Valid;
    LookupKeeps(L, c, n, t);
    LookupStamped(L, c, n, t);
    AddEdgeParts(c, k, t);
    EdgesApart(L, c.Lookup(t), c.AddEdge(k, t), n);
  }

  /** What is known of blocks does not depend on the edges. */
  lemma EdgesApart(L: Layout, c: Cfg, d: Cfg, n: nat)
    requires L.Valid() && 1 <= n <= |L.addr| && d == c.(edges := d.edges)
    ensures Known(L, c, n) ==> Known(L, d, n)
    ensures Stamped(L, c, n) ==> Stamped(L, d, n)
    ensures Ended(L, c, n) ==> Ended(L, d, n)
  {
  }

  lemma AddEdgeParts(c: Cfg, k: Addr, t: Addr)
    requires c.Valid() && k in c.first && c.Lookup(t).Valid()
    ensures var d, e := c.Lookup(t), c.AddEdge(k, t);
            && e.Valid() && e == d.(edges := e.edges) && e.edges == c.edges + {(k, d.blockAt[t])}
            && k in d.first && d.first[k] == c.first[k]
  {
    var d, e := c.Lookup(t), c.AddEdge(k, t);
    assert forall a :: e.Created(a) == d.Created(a);
    if t !in c.blockAt {
      assert !c.Created(t);
    }
  }

  lemma OutOnlyStarts(code: seq<Ins>, L: Layout, i: nat, beyond: Addr, t: Addr)
    requires Plausible(code, beyond) && IsLayout(code, L) && 1 <= i < |code| && BranchSet(code[i]) != {}
    requires t in BranchTargets(BranchSet(code[i]), L.start[i], NextAddr(code, i, beyond))
    ensures OnlyStarts(L, i + 1, t)
  {
    forall j | 0 <= j < |L.addr| && L.addr[j] == t
      ensures L.head[j] && (L.targeted[j] || (j == i + 1 && L.closed[j]))
    {
      BranchTargetsHead(code, L, i, j, t, beyond);
    }
  }

  /** All edges out of a block that ends in a branch are added, and nothing else changes. */
  lemma BranchKeeps(L: Layout, c: Cfg, n: nat, k: Addr, bs: set<Addr>, next: Addr)
    requires L.Valid() && 1 <= n <= |L.addr| && c.Valid() && k in c.first && c.first[k] == k && bs != {}
    requires Known(L, c, n) && Stamped(L, c, n) && Ended(L, c, n)
    requires forall t | t in BranchTargets(bs, k, next) :: OnlyStarts(L, n, t)
    ensures var d := c.Branch(k, bs, next);
            && d.Valid() && Known(L, d, n) && Stamped(L, d, n) && Ended(L, d, n)
            && d.edges == c.edges + EdgesFrom(k, BranchTargets(bs, k, next))
  {
    var m := Least(bs);
    if m == CALL || m == INDIRECT_CALL {
      AddEdgeKeeps(L, c, n, k, next);
      OneEdgeFrom(c.edges, k, next);
    } else if m == RETURN {
      AddEdgeKeeps(L, c, n, k, RETURN);
      OneEdgeFrom(c.edges, k, RETURN);
    } else if m != INDIRECT_BRANCH {
      ConditionalKeeps(L, c, n, k, bs, next);
    }
  }

  lemma ConditionalKeeps(L: Layout, c: Cfg, n: nat, k: Addr, bs: set<Addr>, next: Addr)
    requires L.Valid() && 1 <= n <= |L.addr| && c.Valid() && k in c.first && c.first[k] == k && bs != {}
    requires Known(L, c, n) && Stamped(L, c, n) && Ended(L, c, n)
    requires forall t | t in BranchTargets(bs, k, next) :: OnlyStarts(L, n, t)
    requires Least(bs) !in {CALL, INDIRECT_CALL, RETURN, INDIRECT_BRANCH}
    ensures var d := c.Branch(k, bs, next);
            && d.Valid() && Known(L, d, n) && Stamped(L, d, n) && Ended(L, d, n)
            && d.edges == c.edges + EdgesFrom(k, BranchTargets(bs, k, next))
  {
    var m := Least(bs);
    AddEdgeKeeps(L, c, n, k, m);
    if bs == {m} && m != k {
      OneEdgeFrom(c.edges, k, m);
    } else {
      var u := if bs != {m} then Least(bs - {m}) else next;
      AddEdgeKeeps(L, c.AddEdge(k, m), n, k, u);
      TwoEdgesFrom(c.edges, k, m, u);
    }
  }

  lemma OneEdgeFrom(E: Edges, s: Addr, t: Addr)
    ensures E + {(s, t)} == E + EdgesFrom(s, {t})
  {
  }

  lemma TwoEdgesFrom(E: Edges, s: Addr, t: Addr, u: Addr)
    ensures (E + {(s, t)}) + {(s, u)} == E + EdgesFrom(s, {t, u}) == E + EdgesFrom(s, {t} + {u})
  {
  }

  // ---------------------------------------------------------------- one step of the scan

  /** Instruction i is being scanned, its block exists, and what lies before it is complete. */
  ghost predicate Midway(L: Layout, c: Cfg, i: nat) {
    && L.Valid() && 1 <= i < |L.addr|
    && c.Valid() && Known(L, c, i) && Stamped(L, c, i + 1)
    && (L.addr[i] in c.blockAt <==> L.head[i])
  }

  lemma MapKeeps(L: Layout, c: Cfg, i: nat)
    requires Midway(L, c, i)
    ensures var d := c.MapAddress(L.addr[i], L.start[i]);
            d.Valid() && Known(L, d, i + 1) && Stamped(L, d, i + 1)
  {
    var d := c.MapAddress(L.addr[i], L.start[i]);
    forall a | a in d.blockAt && d.blockAt[a] != a
      ensures exists j :: 0 <= j < i + 1 && L.addr[j] == a && !L.head[j]
    {
      if a == L.addr[i] {
        assert !L.head[i];
      }
    }
  }

  lemma MapHead(L: Layout, c: Cfg, i: nat)
    requires Midway(L, c, i) && L.head[i]
    ensures c.MapAddress(L.addr[i], L.start[i]) == c
  {
    var a := L.addr[i];
    assert c.blockAt[a] == a;
    assert c.blockAt[a := a] == c.blockAt;
  }

  lemma SetLastKeeps(L: Layout, c: Cfg, i: nat)
    requires L.Valid() && i < |L.addr| && c.Valid() && Stamped(L, c, i + 1)
    ensures var d := c.SetLast(L.start[i], L.addr[i]);
            d.Valid() && Stamped(L, d, i + 1) && Ended(L, d, i + 1)
  {
    forall j | 0 <= j < i && L.head[j + 1] ensures L.start[j] != L.start[i] {
      L.StartsDiffer(j, i);
    }
  }

  lemma SetFirstKeeps(L: Layout, c: Cfg, i: nat)
    requires L.Valid() && 1 <= i < |L.addr| && L.head[i] && L.addr[i] in c.first
    requires c.Valid() && Stamped(L, c, i) && Ended(L, c, i)
    ensures var d := c.SetFirst(L.addr[i], L.addr[i]);
            d.Valid() && Stamped(L, d, i + 1)
  {
    forall j | 0 <= j < i ensures L.start[j] != L.addr[i] {
      L.HeadStartsOnce(j, i);
    }
  }

  lemma BranchInsKeeps(code: seq<Ins>, beyond: Addr, L: Layout, c: Cfg, i: nat)
    requires Plausible(code, beyond) && IsLayout(code, L) && Midway(L, c, i) && BranchSet(code[i]) != {}
    ensures L.start[i] in c.first
    ensures var d := BranchIns(code, beyond, c, L.start[i], i);
            && d.Valid() && Known(L, d, i + 1) && Stamped(L, d, i + 1) && Ended(L, d, i + 1)
            && d.edges == c.edges + BranchAway(code, L, i, beyond)
  {
    var k, bs, next := L.start[i], BranchSet(code[i]), NextAddr(code, i, beyond);
    SetLastKeeps(L, c, i);
    MapKeeps(L, c.SetLast(k, L.addr[i]), i);
    forall t | t in BranchTargets(bs, k, next) ensures OnlyStarts(L, i + 1, t) {
      OutOnlyStarts(code, L, i, beyond, t);
    }
    BranchKeeps(L, c.SetLast(k, L.addr[i]).MapAddress(L.addr[i], k), i + 1, k, bs, next);
  }

  lemma ContinueKeeps(code: seq<Ins>, beyond: Addr, L: Layout, c: Cfg, i: nat)
    requires Plausible(code, beyond) && IsLayout(code, L) && Midway(L, c, i) && L.head[i]
    requires c.edges == EdgesUpTo(code, L, i, beyond) + FallIn(L, i)
    ensures L.addr[i] in c.first
    ensures var r := Continue(code, beyond, c, L.addr[i], i);
            Scanned(code, beyond, L, r.0, r.1, i + 1)
  {
    if BranchSet(code[i]) != {} {
      BranchInsKeeps(code, beyond, L, c, i);
    } else {
      MapKeeps(L, c, i);
      MapHead(L, c, i);
      assert BranchAway(code, L, i, beyond) == {};
    }
  }

  lemma HeadFound(L: Layout, c: Cfg, i: nat)
    requires L.Valid() && 1 <= i < |L.addr| && L.head[i]
    requires c.Valid() && Known(L, c, i) && Stamped(L, c, i) && Ended(L, c, i)
    ensures var a, d := L.addr[i], c.Lookup(L.addr[i]);
            d.blockAt[a] == a && Midway(L, d.SetFirst(a, a), i)
  {
    var a := L.addr[i];
    LookupKeeps(L, c, i, a);
    LookupStamped(L, c, i, a);
    SetFirstKeeps(L, c.Lookup(a), i);
  }

  lemma ClosedOpens(code: seq<Ins>, beyond: Addr, L: Layout, c: Cfg, i: nat) returns (d: Cfg)
    requires i < |code| && Scanned(code, beyond, L, c, None, i)
    ensures L.head[i] && Midway(L, d, i) && L.addr[i] in d.first
    ensures d.edges == EdgesUpTo(code, L, i, beyond) + FallIn(L, i)
    ensures Step(code, beyond, c, None, i) == Continue(code, beyond, d, L.addr[i], i)
  {
    hide IsLayout, Known, Stamped, Ended, OnlyStarts, Midway, Layout.Valid, BranchSet, Targeted, EdgesUpTo, Continue,
      FallIn;
    ClosedFacts(code, beyond, L, c, i);
    d := c.Lookup(L.addr[i]).SetFirst(L.addr[i], L.addr[i]);
    HeadFound(L, c, i);
  }

  lemma ClosedFacts(code: seq<Ins>, beyond: Addr, L: Layout, c: Cfg, i: nat)
    requires i < |code| && Scanned(code, beyond, L, c, None, i)
    ensures IsLayout(code, L) && L.Valid() && 1 <= i < |code| == |L.addr| == |L.head| && L.head[i]
    ensures L.addr[i] == code[i].addr && FallIn(L, i) == {}
  {
    hide Known, Stamped, Ended, OnlyStarts, BranchSet, Targeted, EdgesUpTo;
  }

  /** Behind a branch. */
  lemma StepClosed(code: seq<Ins>, beyond: Addr, L: Layout, c: Cfg, i: nat)
    requires Plausible(code, beyond) && i < |code| && Scanned(code, beyond, L, c, None, i)
    ensures var r := Step(code, beyond, c, None, i);
            Scanned(code, beyond, L, r.0, r.1, i + 1)
  {
    var d := ClosedOpens(code, beyond, L, c, i);
    ContinueKeeps(code, beyond, L, d, i);
  }

  /** A branch target inside an open block. */
  lemma StepTargeted(code: seq<Ins>, beyond: Addr, L: Layout, c: Cfg, k: Addr, i: nat)
    requires Plausible(code, beyond) && i < |code| && Scanned(code, beyond, L, c, Some(k), i)
    requires Targeted(code, code[i].addr) && k in c.first
    ensures var r := Step(code, beyond, c, Some(k), i);
            Scanned(code, beyond, L, r.0, r.1, i + 1)
  {
    var d := TargetedOpens(code, beyond, L, c, k, i);
    hide Scanned, Midway, Continue;
    ContinueKeeps(code, beyond, L, d, i);
  }

  /** Ending the open block at a branch target, and opening the next. */
  lemma TargetedOpens(code: seq<Ins>, beyond: Addr, L: Layout, c: Cfg, k: Addr, i: nat) returns (d: Cfg)
    requires Plausible(code, beyond) && i < |code| && Scanned(code, beyond, L, c, Some(k), i)
    requires Targeted(code, code[i].addr) && k in c.first
    ensures IsLayout(code, L) && Midway(L, d, i) && L.head[i]
    ensures d.edges == EdgesUpTo(code, L, i, beyond) + FallIn(L, i)
    ensures Step(code, beyond, c, Some(k), i) == Continue(code, beyond, d, L.addr[i], i)
  {
    hide IsLayout, Plausible, Known, Stamped, Ended, OnlyStarts, Layout.Valid, BranchSet, Targeted, EdgesUpTo,
      Continue, Scanned;
    OpenFacts(code, beyond, L, c, k, i);
    var a := code[i].addr;
    SetLastKeeps(L, c, i - 1);
    var c1 := c.SetLast(k, code[i - 1].addr);
    KnownByKeys(L, c, c1, i);
    AddEdgeKeeps(L, c1, i, k, a);
    var c2 := c1.AddEdge(k, a);
    SetFirstKeeps(L, c2, i);
    d := c2.SetFirst(a, a);
    KnownByKeys(L, c2, d, i);
  }

  /** What is known of addresses depends on which blocks there are and not on what they carry. */
  lemma KnownByKeys(L: Layout, c: Cfg, d: Cfg, n: nat)
    requires L.Valid() && n <= |L.addr| && Known(L, c, n)
    requires d.blockAt == c.blockAt && d.first.Keys == c.first.Keys
    ensures Known(L, d, n)
  {
    hide Layout.Valid;
  }

  /** The open block when a branch target is reached. */
  lemma OpenFacts(code: seq<Ins>, beyond: Addr, L: Layout, c: Cfg, k: Addr, i: nat)
    requires Plausible(code, beyond) && i < |code| && Scanned(code, beyond, L, c, Some(k), i)
    requires Targeted(code, code[i].addr) && k in c.first
    ensures IsLayout(code, L) && L.Valid() && 1 <= i < |code| == |L.addr| == |L.start| == |L.head|
    ensures |L.closed| == |code| + 1 && |L.targeted| == |code|
    ensures L.addr[i] == code[i].addr && L.addr[i - 1] == code[i - 1].addr && k == L.start[i - 1]
    ensures !L.closed[i] && L.targeted[i] && L.head[i] && OnlyStarts(L, i, code[i].addr)
    ensures c.Valid() && Known(L, c, i) && Stamped(L, c, i) && c.edges == EdgesUpTo(code, L, i, beyond)
  {
    hide Known, Stamped, Targeted, BranchSet, EdgesUpTo;
  }

  /** The open block when no branch leads to the instruction. */
  lemma InsideFacts(code: seq<Ins>, beyond: Addr, L: Layout, c: Cfg, k: Addr, i: nat)
    requires Plausible(code, beyond) && i < |code| && Scanned(code, beyond, L, c, Some(k), i)
    requires !Targeted(code, code[i].addr)
    ensures IsLayout(code, L) && L.Valid() && 1 <= i < |code| == |L.addr| == |L.start|
    ensures |L.closed| == |code| + 1 && (L.closed[i + 1] <==> BranchSet(code[i]) != {})
    ensures L.addr[i] == code[i].addr && k == L.start[i] && Midway(L, c, i)
    ensures c.edges == EdgesUpTo(code, L, i, beyond) + FallIn(L, i)
  {
    hide BranchSet, Targeted, EdgesUpTo, Known, Stamped, Ended, Midway;
    InsideMidway(L, c, i);
  }

  lemma InsideMidway(L: Layout, c: Cfg, i: nat)
    requires L.Valid() && 1 <= i < |L.addr| && !L.head[i] && !L.targeted[i] && !L.closed[i]
    requires c.Valid() && Known(L, c, i) && Stamped(L, c, i)
    ensures Midway(L, c, i)
  {
    assert L.start[i] == L.start[i - 1];
    assert L.addr[i] !in c.blockAt;
  }

  /** Any other instruction inside an open block. */
  lemma StepInside(code: seq<Ins>, beyond: Addr, L: Layout, c: Cfg, k: Addr, i: nat)
    requires Plausible(code, beyond) && i < |code| && Scanned(code, beyond, L, c, Some(k), i)
    requires !Targeted(code, code[i].addr) && k in c.first
    ensures var r := Step(code, beyond, c, Some(k), i);
            Scanned(code, beyond, L, r.0, r.1, i + 1)
  {
    hide IsLayout, Layout.Valid, Known, Stamped, Ended, Midway, Plausible, Targeted, BranchSet, BranchIns, BranchAway,
      FallIn;
    InsideFacts(code, beyond, L, c, k, i);
    if BranchSet(code[i]) != {} {
      BranchInsKeeps(code, beyond, L, c, i);
    } else {
      MapKeeps(L, c, i);
      NothingAway(code, L, i, beyond);
    }
  }

  lemma NothingAway(code: seq<Ins>, L: Layout, i: nat, beyond: Addr)
    requires L.Valid() && 1 <= i < |code| == |L.addr| && BranchSet(code[i]) == {}
    ensures BranchAway(code, L, i, beyond) == {}
  {
  }

  lemma StepKeeps(code: seq<Ins>, beyond: Addr, L: Layout, c: Cfg, cur: Option<Addr>, i: nat)
    requires Plausible(code, beyond) && i < |code| && Scanned(code, beyond, L, c, cur, i)
    ensures cur.Some? ==> cur.value in c.first
    ensures var r := Step(code, beyond, c, cur, i);
            Scanned(code, beyond, L, r.0, r.1, i + 1)
  {
    if cur.None? {
      StepClosed(code, beyond, L, c, i);
    } else if Targeted(code, code[i].addr) {
      StepTargeted(code, beyond, L, c, cur.value, i);
    } else {
      StepInside(code, beyond, L, c, cur.value, i);
    }
  }

  lemma BranchGrows(c: Cfg, k: Addr, bs: set<Addr>, next: Addr)
    requires k in c.first && bs != {}
    ensures c.blockAt.Keys <= c.Branch(k, bs, next).blockAt.Keys
  {
  }

  lemma ContinueGrows(code: seq<Ins>, beyond: Addr, c: Cfg, k: Addr, i: nat)
    requires i < |code| && k in c.first
    ensures c.blockAt.Keys <= Continue(code, beyond, c, k, i).0.blockAt.Keys
  {
    if BranchSet(code[i]) != {} {
      var a := code[i].addr;
      BranchGrows(c.SetLast(k, a).MapAddress(a, k), k, BranchSet(code[i]), NextAddr(code, i, beyond));
    }
  }

  lemma StepGrows(code: seq<Ins>, beyond: Addr, c: Cfg, cur: Option<Addr>, i: nat)
    requires c.Valid() && 1 <= i < |code| && (cur.Some? ==> cur.value in c.first)
    ensures c.blockAt.Keys <= Step(code, beyond, c, cur, i).0.blockAt.Keys
  {
    var a := code[i].addr;
    if cur.None? {
      ContinueGrows(code, beyond, c.Open(a), c.Open(a).blockAt[a], i);
    } else if Targeted(code, a) {
      var d := c.FallInto(cur.value, code[i - 1].addr, a);
      ContinueGrows(code, beyond, d, d.blockAt[a], i);
    } else {
      ContinueGrows(code, beyond, c, cur.value, i);
    }
  }

  lemma KnownAgree(L: Layout, c: Cfg, d: Cfg, i: nat, a: Addr)
    requires L.Valid() && i < |L.addr| && Known(L, c, i) && Known(L, d, i + 1)
    requires a in c.blockAt && a in d.blockAt
    ensures d.blockAt[a] == c.blockAt[a]
  {
    if d.blockAt[a] != a {
      var j :| 0 <= j < i + 1 && L.addr[j] == a && !L.head[j];
      assert j < i;
    }
  }

  /** A mapped address is never remapped to another block. */
  lemma StepNeverRemaps(code: seq<Ins>, beyond: Addr, L: Layout, c: Cfg, cur: Option<Addr>, i: nat, a: Addr)
    requires Plausible(code, beyond) && i < |code| && Scanned(code, beyond, L, c, cur, i) && a in c.blockAt
    ensures cur.Some? ==> cur.value in c.first
    ensures var r := Step(code, beyond, c, cur, i);
            a in r.0.blockAt && r.0.blockAt[a] == c.blockAt[a]
  {
    StepKeeps(code, beyond, L, c, cur, i);
    StepGrows(code, beyond, c, cur, i);
    KnownAgree(L, c, Step(code, beyond, c, cur, i).0, i, a);
  }

  // ---------------------------------------------------------------- the whole scan

  lemma InitialScanned(code: seq<Ins>, beyond: Addr, L: Layout)
    requires Plausible(code, beyond) && IsLayout(code, L)
    ensures Scanned(code, beyond, L, Initial(code[0].addr), Some(code[0].addr), 1)
  {
    InitialKnown(L);
    assert EdgesUpTo(code, L, 1, beyond) == {};
  }

  lemma InitialKnown(L: Layout)
    requires L.Valid()
    ensures var c := Initial(L.addr[0]);
            c.Valid() && Known(L, c, 1) && Stamped(L, c, 1)
  {
    var c := Initial(L.addr[0]);
    assert L.head[0] && L.start[0] == L.addr[0];
    assert c.blockAt.Keys == {L.addr[0], RETURN} == c.first.Keys == c.last.Keys;
    assert forall a | a in c.blockAt :: c.blockAt[a] == a;
    assert forall k | 1 <= k < |L.addr| :: L.addr[k] !in c.blockAt;
  }

  /** One turn of the loop; r holds the blocks and the open block. */
  ghost function Turn(code: seq<Ins>, beyond: Addr, r: (Cfg, Option<Addr>), i: nat): (Cfg, Option<Addr>)
    requires 1 <= i < |code|
  {
    if r.0.Valid() && (r.1.Some? ==> r.1.value in r.0.first) then Step(code, beyond, r.0, r.1, i) else r
  }

  /** The blocks and the open block after n instructions. */
  ghost function ScanUpTo(code: seq<Ins>, beyond: Addr, n: nat): (Cfg, Option<Addr>)
    requires 1 <= n <= |code|
  {
    if n == 1 then (Initial(code[0].addr), Some(code[0].addr))
    else Turn(code, beyond, ScanUpTo(code, beyond, n - 1), n - 1)
  }

  lemma ScanUpToFirst(code: seq<Ins>, beyond: Addr)
    requires code != []
    ensures ScanUpTo(code, beyond, 1) == (Initial(code[0].addr), Some(code[0].addr))
  {
  }

  lemma ScanUpToNext(code: seq<Ins>, beyond: Addr, r: (Cfg, Option<Addr>), i: nat)
    requires 1 <= i < |code| && r == ScanUpTo(code, beyond, i)
    requires r.0.Valid() && (r.1.Some? ==> r.1.value in r.0.first)
    ensures ScanUpTo(code, beyond, i + 1) == Step(code, beyond, r.0, r.1, i)
  {
  }

  lemma {:induction false} ScanUpToScanned(code: seq<Ins>, beyond: Addr, L: Layout, n: nat)
    requires Plausible(code, beyond) && IsLayout(code, L) && 1 <= n <= |code|
    ensures var r := ScanUpTo(code, beyond, n);
            Scanned(code, beyond, L, r.0, r.1, n)
  {
    if n == 1 {
      InitialScanned(code, beyond, L);
    } else {
      ScanUpToScanned(code, beyond, L, n - 1);
      var r := ScanUpTo(code, beyond, n - 1);
      StepKeeps(code, beyond, L, r.0, r.1, n - 1);
    }
  }

  /** The finished scan closes a block that is still open. */
  ghost function Scan(code: seq<Ins>, beyond: Addr): Cfg
    requires code != []
  {
    var r := ScanUpTo(code, beyond, |code|);
    if r.1.Some? then r.0.SetLast(r.1.value, code[|code| - 1].addr) else r.0
  }

  lemma ScanEnds(code: seq<Ins>, beyond: Addr, L: Layout)
    requires Plausible(code, beyond) && IsLayout(code, L)
    ensures var c := Scan(code, beyond);
            && c.Valid() && Known(L, c, |code|) && Stamped(L, c, |code|) && Ended(L, c, |code|)
            && c.edges == EdgesUpTo(code, L, |code|, beyond)
  {
    var r := ScanUpTo(code, beyond, |code|);
    ScanUpToScanned(code, beyond, L, |code|);
    if r.1.Some? {
      SetLastKeeps(L, r.0, |code| - 1);
    }
  }

  /** Every instruction is mapped to a block; two instructions share a block exactly when no block
      starts between them. */
  lemma EveryInstructionMapped(code: seq<Ins>, beyond: Addr, L: Layout, i: nat, j: nat)
    requires Plausible(code, beyond) && IsLayout(code, L) && i < j < |code|
    ensures var c := Scan(code, beyond);
            && code[i].addr in c.blockAt && code[j].addr in c.blockAt
            && (c.blockAt[code[i].addr] == c.blockAt[code[j].addr] <==> forall k | i < k <= j :: !L.head[k])
  {
    ScanEnds(code, beyond, L);
    var k := L.StartAt(i);
    var l := L.StartAt(j);
  }

  /** Only the first instruction of a block is a branch target. */
  lemma TargetsStartBlocks(code: seq<Ins>, beyond: Addr, L: Layout, i: nat)
    requires Plausible(code, beyond) && IsLayout(code, L) && i < |code| && Targeted(code, code[i].addr)
    ensures var c := Scan(code, beyond);
            && code[i].addr in c.blockAt && c.blockAt[code[i].addr] in c.first
            && c.first[c.blockAt[code[i].addr]] == code[i].addr
  {
    ScanEnds(code, beyond, L);
  }

  /** Every branch after the routine's first instruction is the last instruction of its block. */
  lemma BranchesEndBlocks(code: seq<Ins>, beyond: Addr, L: Layout, i: nat)
    requires Plausible(code, beyond) && IsLayout(code, L) && 1 <= i < |code| && BranchSet(code[i]) != {}
    ensures var c := Scan(code, beyond);
            && code[i].addr in c.blockAt && c.blockAt[code[i].addr] in c.last
            && c.last[c.blockAt[code[i].addr]] == code[i].addr
            && forall j | i < j < |code| ::
                 code[j].addr in c.blockAt && c.blockAt[code[j].addr] != c.blockAt[code[i].addr]
  {
    hide Scan, Plausible, IsLayout, Layout.Valid, BranchSet;
    BranchFacts(code, beyond, L, i);
    var c := Scan(code, beyond);
    forall j | i < j < |code|
      ensures code[j].addr in c.blockAt && c.blockAt[code[j].addr] != c.blockAt[code[i].addr]
    {
      EveryInstructionMapped(code, beyond, L, i, j);
    }
  }

  lemma BranchFacts(code: seq<Ins>, beyond: Addr, L: Layout, i: nat)
    requires Plausible(code, beyond) && IsLayout(code, L) && 1 <= i < |code| && BranchSet(code[i]) != {}
    ensures |L.head| == |code| && (i + 1 < |code| ==> L.head[i + 1])
    ensures var c := Scan(code, beyond);
            && code[i].addr in c.blockAt && c.blockAt[code[i].addr] in c.last
            && c.last[c.blockAt[code[i].addr]] == code[i].addr
  {
    hide Scan, Plausible, BranchSet, EdgesUpTo, Targeted;
    ScanEnds(code, beyond, L);
  }

  /** The routine's first instruction is the exception: it is never looked at as a branch, so it ends its
      block exactly when the second instruction is a branch target. */
  lemma FirstEndsBlockIff(code: seq<Ins>, beyond: Addr, L: Layout)
    requires Plausible(code, beyond) && IsLayout(code, L) && |code| > 1
    ensures var c := Scan(code, beyond);
            && code[0].addr in c.blockAt && code[1].addr in c.blockAt
            && (c.blockAt[code[0].addr] != c.blockAt[code[1].addr] <==> Targeted(code, code[1].addr))
  {
    EveryInstructionMapped(code, beyond, L, 0, 1);
  }

  // ---------------------------------------------------------------- the graph for the pass

  /** The addresses of the blocks that take part in the post-dominance pass. */
  ghost function Starts(L: Layout): set<Addr> {
    {RETURN} + set i | 0 <= i < |L.start| :: L.start[i]
  }

  ghost function PredecessorGraph(L: Layout, edges: Edges): Graph {
    map a | a in Starts(L) :: set e | e in edges && e.1 == a :: e.0
  }

  lemma {:induction false} EdgeSources(code: seq<Ins>, L: Layout, n: nat, beyond: Addr, e: (Addr, Addr))
    requires IsLayout(code, L) && n <= |code| && e in EdgesUpTo(code, L, n, beyond)
    ensures exists i :: 0 <= i < n && e.0 == L.start[i]
  {
    assert L.Valid() && |L.addr| == |code| == |L.start|;
    hide IsLayout, BranchTargets, Layout.Valid;
    if e in EdgesUpTo(code, L, n - 1, beyond) {
      EdgeSources(code, L, n - 1, beyond, e);
    } else if e in FallIn(L, n - 1) {
      assert e.0 == L.start[n - 2];
    } else {
      assert e.0 == L.start[n - 1];
    }
  }

  lemma StartsCreated(code: seq<Ins>, beyond: Addr, L: Layout, a: Addr)
    requires Plausible(code, beyond) && IsLayout(code, L) && a in Starts(L)
    ensures a in Scan(code, beyond).first && Scan(code, beyond).first[a] == a
  {
    ScanEnds(code, beyond, L);
    StampedStarts(L, Scan(code, beyond), a);
  }

  lemma StampedStarts(L: Layout, c: Cfg, a: Addr)
    requires L.Valid() && Stamped(L, c, |L.addr|) && a in Starts(L)
    ensures a in c.first && c.first[a] == a
  {
    if a != RETURN {
      var i :| 0 <= i < |L.start| && a == L.start[i];
    }
  }

  lemma SourcesAreStarts(code: seq<Ins>, beyond: Addr, L: Layout, e: (Addr, Addr))
    requires Plausible(code, beyond) && IsLayout(code, L) && e in Scan(code, beyond).edges
    ensures e.0 in Starts(L) && e.0 != RETURN
  {
    ScanEnds(code, beyond, L);
    EdgeSources(code, L, |code|, beyond, e);
    var i :| 0 <= i < |code| && e.0 == L.start[i];
    var k := L.StartAt(i);
  }

  /** The return block precedes no block, and every predecessor takes part in the pass. */
  lemma GraphWellFormed(code: seq<Ins>, beyond: Addr, L: Layout)
    requires Plausible(code, beyond) && IsLayout(code, L)
    ensures WellFormed(PredecessorGraph(L, Scan(code, beyond).edges))
  {
    var edges := Scan(code, beyond).edges;
    forall e | e in edges ensures e.0 in Starts(L) && e.0 != RETURN {
      SourcesAreStarts(code, beyond, L, e);
    }
  }

  /** Scanning instruction i finds that control can get from the block at s to the block at t: it falls
      from an open block into a branch target, or i is a branch that leads to t. */
  ghost predicate Leads(code: seq<Ins>, L: Layout, beyond: Addr, i: nat, s: Addr, t: Addr)
    requires L.Valid() && 1 <= i < |code| == |L.addr|
  {
    || (!L.closed[i] && L.targeted[i] && s == L.start[i - 1] && t == L.addr[i])
    || (BranchSet(code[i]) != {} && s == L.start[i] &&
        t in BranchTargets(BranchSet(code[i]), L.start[i], NextAddr(code, i, beyond)))
  }

  lemma LeadsIffNew(code: seq<Ins>, L: Layout, n: nat, beyond: Addr, s: Addr, t: Addr)
    requires L.Valid() && 1 <= n < |code| == |L.addr|
    ensures (s, t) in EdgesUpTo(code, L, n + 1, beyond) <==>
            (s, t) in EdgesUpTo(code, L, n, beyond) || Leads(code, L, beyond, n, s, t)
  {
    hide BranchTargets, BranchSet, Targeted;
  }

  lemma {:induction false} FoundIffLeads(code: seq<Ins>, L: Layout, n: nat, beyond: Addr, s: Addr, t: Addr)
    requires L.Valid() && 1 <= n <= |code| == |L.addr|
    ensures (s, t) in EdgesUpTo(code, L, n, beyond) <==> exists i :: 1 <= i < n && Leads(code, L, beyond, i, s, t)
  {
    hide Leads, EdgesUpTo, Layout.Valid, Targeted;
    if n == 1 {
      NoneFound(code, L, beyond);
    } else {
      FoundIffLeads(code, L, n - 1, beyond, s, t);
      LeadsIffNew(code, L, n - 1, beyond, s, t);
    }
  }

  lemma NoneFound(code: seq<Ins>, L: Layout, beyond: Addr)
    requires L.Valid() && 1 <= |code| == |L.addr|
    ensures EdgesUpTo(code, L, 1, beyond) == {}
  {
  }

  /** The edges the scan finds are exactly those that some instruction behind the first one leads along. */
  lemma EdgesExactly(code: seq<Ins>, beyond: Addr, L: Layout, s: Addr, t: Addr)
    requires Plausible(code, beyond) && IsLayout(code, L)
    ensures (s, t) in Scan(code, beyond).edges <==> exists i :: 1 <= i < |code| && Leads(code, L, beyond, i, s, t)
  {
    hide Scan, EdgesUpTo, Leads, Targeted, Known, Stamped, Ended;
    ScanEnds(code, beyond, L);
    FoundIffLeads(code, L, |code|, beyond, s, t);
  }
}
