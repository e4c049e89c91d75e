/** The instructions of a routine, and the basic-block structure the two passes should find. */
module Routine {
  import opened PostDominance

  // The impossible addresses that flag special branch targets.
  const CALL: Addr := 1
  const INDIRECT_CALL: Addr := 4
  const INDIRECT_BRANCH: Addr := 5

  /** What the passes read of an instruction.  `next` is the address of its fall-through. */
  datatype Ins = Ins(addr: Addr, isBranch: bool, isCall: bool, isRet: bool,
                     isDirect: bool, target: Addr, hasFallThrough: bool, next: Addr)

  /** Instructions have distinct addresses, none of them a flag or the address read past the end. */
  ghost predicate Plausible(code: seq<Ins>, beyond: Addr) {
    && code != []
    && (forall i | 0 <= i < |code| :: code[i].addr != beyond)
    && (forall i | 0 <= i < |code| :: code[i].addr > INDIRECT_BRANCH)
    && (forall i, j | 0 <= i < j < |code| :: code[i].addr != code[j].addr)
  }

  function BranchPart(ins: Ins): set<Addr> {
    if ins.isBranch then
      {if ins.isDirect then ins.target else INDIRECT_BRANCH} + (if ins.hasFallThrough then {ins.next} else {})
    else {}
  }

  function CallPart(ins: Ins): set<Addr> {
    if ins.isCall then
      {if ins.isDirect then CALL else INDIRECT_CALL} + (if ins.hasFallThrough then {ins.next} else {})
    else {}
  }

  /** The targets and flags recorded for an instruction that ends a block. */
  function BranchSet(ins: Ins): set<Addr> {
    BranchPart(ins) + CallPart(ins) + (if ins.isRet then {RETURN} else {})
  }

  function BranchTargetPart(ins: Ins): set<Addr> {
    if ins.isBranch then
      (if ins.isDirect then {ins.target} else {}) + (if ins.hasFallThrough then {ins.next} else {})
    else {}
  }

  function CallTargetPart(ins: Ins): set<Addr> {
    if ins.isCall && ins.hasFallThrough then {ins.next} else {}
  }

  /** The addresses an instruction makes a branch target. */
  function TargetsOf(ins: Ins): set<Addr> {
    BranchTargetPart(ins) + CallTargetPart(ins)
  }

  /** The instructions among the first n that target address a. */
  ghost function Targeting(code: seq<Ins>, n: nat, a: Addr): set<Addr>
    requires n <= |code|
  {
    set i | 0 <= i < n && a in TargetsOf(code[i]) :: code[i].addr
  }

  lemma TargetingStep(code: seq<Ins>, n: nat, a: Addr)
    requires n < |code|
    ensures Targeting(code, n + 1, a) ==
            Targeting(code, n, a) + if a in TargetsOf(code[n]) then {code[n].addr} else {}
  {
  }

  lemma TargetingIsTargeted(code: seq<Ins>, a: Addr)
    ensures Targeting(code, |code|, a) != {} <==> Targeted(code, a)
  {
    if Targeted(code, a) {
      var j :| 0 <= j < |code| && a in TargetsOf(code[j]);
      assert code[j].addr in Targeting(code, |code|, a);
    }
  }

  ghost predicate Targeted(code: seq<Ins>, a: Addr) {
    exists j :: 0 <= j < |code| && a in TargetsOf(code[j])
  }

  /** The basic blocks of a routine: for every instruction its address, whether it is a branch target,
      whether it is the first of its block, and the first address of its block.  `closed[i]` says
      that no block is open when instruction i is reached. */
  datatype Layout = Layout(addr: seq<Addr>, targeted: seq<bool>, closed: seq<bool>,
                           head: seq<bool>, start: seq<Addr>) {

    /** A block starts at the routine's first instruction, behind a branch and at a branch target. */
    ghost predicate Valid() {
      && |targeted| == |head| == |start| == |addr| && |closed| == |addr| + 1 && |addr| > 0
      && !closed[0] && !closed[1]
      && (forall i | 0 <= i < |addr| :: addr[i] > INDIRECT_BRANCH)
      && (forall i, j | 0 <= i < j < |addr| :: addr[i] != addr[j])
      && (forall i | 0 <= i < |addr| :: head[i] <==> i == 0 || closed[i] || targeted[i])
      && (forall i | 0 <= i < |addr| && head[i] :: start[i] == addr[i])
      && (forall i | 1 <= i < |addr| && !head[i] :: start[i] == start[i - 1])
    }

    /** Every block starts at one of its instructions, at or before each of them. */
    lemma {:induction false} StartAt(i: nat) returns (k: nat)
      requires Valid() && i < |addr|
      ensures k <= i && head[k] && start[i] == addr[k]
      ensures forall j | k < j <= i :: !head[j]
    {
      if head[i] {
        k := i;
      } else {
        k := StartAt(i - 1);
      }
    }

    /** Instructions with a block start between them lie in different blocks. */
    lemma StartsDiffer(j: nat, i: nat)
      requires Valid() && j < i < |addr| && head[j + 1]
      ensures start[j] != start[i]
    {
      var k := StartAt(j);
      var l := StartAt(i);
    }

    lemma HeadStartsOnce(j: nat, i: nat)
      requires Valid() && j < i < |addr| && head[i]
      ensures start[j] != addr[i]
    {
      var k := StartAt(j);
    }
  }

  /** The layout a routine's instructions call for.  The routine's first instruction never closes its
      block, since the scan starts behind it. */
  ghost predicate IsLayout(code: seq<Ins>, L: Layout) {
    && L.Valid() && |L.addr| == |code|
    && (forall i | 0 <= i < |code| :: L.addr[i] == code[i].addr)
    && (forall i | 0 <= i < |code| :: L.targeted[i] <==> Targeted(code, code[i].addr))
    && (forall i | 1 <= i < |code| :: L.closed[i + 1] <==> BranchSet(code[i]) != {})
  }

  ghost function StartsOf(addr: seq<Addr>, head: seq<bool>, n: nat): (s: seq<Addr>)
    requires n <= |addr| == |head| && (n > 0 ==> head[0])
    ensures |s| == n
    ensures forall i | 0 <= i < n && head[i] :: s[i] == addr[i]
    ensures forall i | 1 <= i < n && !head[i] :: s[i] == s[i - 1]
  {
    if n == 0 then []
    else
      var s := StartsOf(addr, head, n - 1);
      s + [if head[n - 1] then addr[n - 1] else s[n - 2]]
  }

  lemma LayoutExists(code: seq<Ins>, beyond: Addr) returns (L: Layout)
    requires Plausible(code, beyond)
    ensures IsLayout(code, L)
  {
    hide Targeted, BranchSet, IsLayout;
    var targeted := seq(|code|, i requires 0 <= i < |code| => Targeted(code, code[i].addr));
    var closed := seq(|code| + 1, i requires 0 <= i <= |code| => i >= 2 && BranchSet(code[i - 1]) != {});
    var head := seq(|code|, i requires 0 <= i < |code| => i == 0 || closed[i] || targeted[i]);
    L := LayoutWith(code, beyond, targeted, closed, head);
  }

  lemma LayoutWith(code: seq<Ins>, beyond: Addr, targeted: seq<bool>, closed: seq<bool>, head: seq<bool>)
    returns (L: Layout)
    requires Plausible(code, beyond) && |targeted| == |head| == |code| && |closed| == |code| + 1
    requires forall i | 0 <= i < |code| :: targeted[i] <==> Targeted(code, code[i].addr)
    requires forall i | 0 <= i <= |code| :: closed[i] <==> i >= 2 && BranchSet(code[i - 1]) != {}
    requires forall i | 0 <= i < |code| :: head[i] <==> i == 0 || closed[i] || targeted[i]
    ensures IsLayout(code, L)
  {
    hide Targeted, BranchSet;
    var addr := seq(|code|, i requires 0 <= i < |code| => code[i].addr);
    L := Layout(addr, targeted, closed, head, StartsOf(addr, head, |code|));
  }

  /** The address of the instruction behind i; `beyond` is what is read past the end. */
  function NextAddr(code: seq<Ins>, i: nat, beyond: Addr): Addr
    requires i < |code|
  {
    if i + 1 < |code| then code[i + 1].addr else beyond
  }

  lemma {:induction false} LeastExists(s: set<Addr>) returns (m: Addr)
    requires s != {}
    ensures m in s && forall x | x in s :: m <= x
    decreases s
  {
    var a :| a in s;
    var rest := s - {a};
    m := a;
    if rest != {} {
      var l := LeastExists(rest);
      m := if l <= a then l else a;
    }
    forall x | x in s ensures m <= x {
      assert x == a || x in rest;
    }
  }

  /** The first element of an ordered set. */
  function Least(s: set<Addr>): (m: Addr)
    requires s != {}
    ensures m in s && forall x | x in s :: m <= x
  {
    assert exists m :: m in s && forall x | x in s :: m <= x by {
      var l := LeastExists(s);
    }
    var m :| m in s && forall x | x in s :: m <= x;
    m
  }

  /** Where control goes from a block that starts at `start` and ends in a branch with targets s. */
  ghost function BranchTargets(s: set<Addr>, start: Addr, next: Addr): set<Addr>
    requires s != {}
  {
    var m := Least(s);
    if m == CALL || m == INDIRECT_CALL then {next}
    else if m == RETURN then {RETURN}
    else if m == INDIRECT_BRANCH then {}
    else {m} + if s != {m} then {Least(s - {m})} else if m == start then {next} else {}
  }

  type Edges = set<(Addr, Addr)>

  ghost function EdgesFrom(a: Addr, targets: set<Addr>): Edges {
    set t | t in targets :: (a, t)
  }

  /** The edge found on reaching instruction i inside an open block, when i starts a new one. */
  ghost function FallIn(L: Layout, i: nat): Edges
    requires L.Valid() && 1 <= i < |L.addr|
  {
    if !L.closed[i] && L.targeted[i] then {(L.start[i - 1], L.addr[i])} else {}
  }

  /** The edges found at branch instruction i. */
  ghost function BranchAway(code: seq<Ins>, L: Layout, i: nat, beyond: Addr): Edges
    requires L.Valid() && 1 <= i < |L.addr| == |code|
  {
    if BranchSet(code[i]) != {} then
      EdgesFrom(L.start[i], BranchTargets(BranchSet(code[i]), L.start[i], NextAddr(code, i, beyond)))
    else {}
  }

  /** All control-flow edges between blocks found by scanning the first n instructions. */
  ghost function EdgesUpTo(code: seq<Ins>, L: Layout, n: nat, beyond: Addr): Edges
    requires L.Valid() && n <= |L.addr| == |code|
  {
    if n <= 1 then {}
    else EdgesUpTo(code, L, n - 1, beyond) + FallIn(L, n - 1) + BranchAway(code, L, n - 1, beyond)
  }

  /** A target of branch i is the first address of a block, or no instruction at all. */
  lemma BranchTargetsHead(code: seq<Ins>, L: Layout, i: nat, j: nat, t: Addr, beyond: Addr)
    requires Plausible(code, beyond) && IsLayout(code, L) && 1 <= i < |code| && j < |code|
    requires BranchSet(code[i]) != {}
    requires t in BranchTargets(BranchSet(code[i]), L.start[i], NextAddr(code, i, beyond))
    requires code[j].addr == t
    ensures L.head[j] && (L.targeted[j] || (j == i + 1 && L.closed[j]))
  {
    hide BranchSet, TargetsOf, Targeted, BranchTargets;
    if t in BranchSet(code[i]) {
      TargetOrFlag(code[i], t);
      TargetedBy(code, i, t);
      TargetIsHead(code, L, j);
    } else {
      BranchTargetsOf(BranchSet(code[i]), L.start[i], NextAddr(code, i, beyond), t);
      NextIsHead(code, L, i, j, beyond);
    }
  }

  lemma TargetedBy(code: seq<Ins>, i: nat, t: Addr)
    requires i < |code| && t in TargetsOf(code[i])
    ensures Targeted(code, t)
  {
  }

  /** A branch leads to one of its targets, to the return block or behind itself. */
  lemma BranchTargetsOf(s: set<Addr>, start: Addr, next: Addr, t: Addr)
    requires s != {} && t in BranchTargets(s, start, next) && t !in s
    ensures t == next
  {
  }

  lemma TargetIsHead(code: seq<Ins>, L: Layout, j: nat)
    requires IsLayout(code, L) && j < |code| && Targeted(code, code[j].addr)
    ensures L.head[j] && L.targeted[j]
  {
    hide Targeted, BranchSet;
  }

  /** The instruction behind a branch starts a block. */
  lemma NextIsHead(code: seq<Ins>, L: Layout, i: nat, j: nat, beyond: Addr)
    requires Plausible(code, beyond) && IsLayout(code, L) && 1 <= i < |code| && j < |code|
    requires BranchSet(code[i]) != {} && code[j].addr == NextAddr(code, i, beyond)
    ensures j == i + 1 && L.head[j] && L.closed[j]
  {
    hide Targeted, BranchSet;
  }

  lemma TargetOrFlag(ins: Ins, t: Addr)
    requires t in BranchSet(ins)
    ensures t in TargetsOf(ins) || t <= INDIRECT_BRANCH
  {
  }
}
