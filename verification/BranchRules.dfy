/** What the two passes make of each kind of instruction, in terms of the instruction's own fields.

    The flags are the numbers 1 for a call, 2 for a return, 4 for an indirect call and 5 for an indirect branch. */
module BranchRules {
  import opened PostDominance
  import opened Routine
  import opened AddressMaps
  import opened BlockScan
  import opened BlockSuccessors

  // ---------------------------------------------------------------- the first pass

  /** x is recorded for the instruction: a target, a fall-through or a flag. */
  ghost predicate Enters(ins: Ins, x: Addr) {
    || (ins.isBranch && ins.isDirect && x == ins.target)
    || (ins.isBranch && !ins.isDirect && x == 5)
    || (ins.isCall && ins.isDirect && x == 1)
    || (ins.isCall && !ins.isDirect && x == 4)
    || (ins.isRet && x == 2)
    || ((ins.isBranch || ins.isCall) && ins.hasFallThrough && x == ins.next)
  }

  /** The instruction makes a block start at a. */
  ghost predicate Names(ins: Ins, a: Addr) {
    || (ins.isBranch && ins.isDirect && a == ins.target)
    || ((ins.isBranch || ins.isCall) && ins.hasFallThrough && a == ins.next)
  }

  /** The instruction ends a block, unless it is the routine's first. */
  ghost predicate Ends(ins: Ins) {
    ins.isBranch || ins.isCall || ins.isRet
  }

  lemma EntersIff(ins: Ins, x: Addr)
    ensures x in BranchSet(ins) <==> Enters(ins, x)
    ensures x in TargetsOf(ins) <==> Names(ins, x)
  {
  }

  lemma EndsIff(ins: Ins)
    ensures BranchSet(ins) != {} <==> Ends(ins)
  {
    if ins.isBranch {
      EntersIff(ins, if ins.isDirect then ins.target else 5);
    } else if ins.isCall {
      EntersIff(ins, if ins.isDirect then 1 else 4);
    } else if ins.isRet {
      EntersIff(ins, 2);
    }
  }

  lemma TargetedIff(code: seq<Ins>, a: Addr)
    ensures Targeted(code, a) <==> exists j :: 0 <= j < |code| && Names(code[j], a)
  {
    forall j | 0 <= j < |code| ensures a in TargetsOf(code[j]) <==> Names(code[j], a) {
      EntersIff(code[j], a);
    }
  }

  /** What the first pass leaves in its two maps. */
  lemma MapsHold(code: seq<Ins>, beyond: Addr, branches: AddressSets, targets: AddressSets, i: nat, x: Addr)
    requires Plausible(code, beyond) && i < |code|
    requires MappedBranches(code, branches, |code|) && MappedTargets(code, targets, |code|)
    ensures x in At(branches, code[i].addr) <==> Enters(code[i], x)
    ensures code[i].addr in At(targets, x) <==> Names(code[i], x)
  {
    EntersIff(code[i], x);
    if code[i].addr in Targeting(code, |code|, x) {
      var j :| 0 <= j < |code| && x in TargetsOf(code[j]) && code[j].addr == code[i].addr;
      assert i == j;
    }
  }

  /** Neither a direct target nor a fall-through of the instruction is a flag. */
  ghost predicate Unflagged(ins: Ins) {
    && (ins.isBranch && ins.isDirect ==> ins.target > 5)
    && ((ins.isBranch || ins.isCall) && ins.hasFallThrough ==> ins.next > 5)
  }

  /** When each flag is recorded for an instruction. */
  lemma FlagsHold(code: seq<Ins>, beyond: Addr, branches: AddressSets, targets: AddressSets, i: nat)
    requires Plausible(code, beyond) && i < |code| && Unflagged(code[i])
    requires MappedBranches(code, branches, |code|) && MappedTargets(code, targets, |code|)
    ensures var flags := At(branches, code[i].addr);
            && (1 in flags <==> code[i].isCall && code[i].isDirect)
            && (2 in flags <==> code[i].isRet)
            && (4 in flags <==> code[i].isCall && !code[i].isDirect)
            && (5 in flags <==> code[i].isBranch && !code[i].isDirect)
  {
    MapsHold(code, beyond, branches, targets, i, 1);
    MapsHold(code, beyond, branches, targets, i, 2);
    MapsHold(code, beyond, branches, targets, i, 4);
    MapsHold(code, beyond, branches, targets, i, 5);
  }

  // ---------------------------------------------------------------- the blocks

  /** A block starts at instruction i. */
  ghost predicate Begins(code: seq<Ins>, i: nat)
    requires i < |code|
  {
    i == 0 || (i >= 2 && Ends(code[i - 1])) || exists j :: 0 <= j < |code| && Names(code[j], code[i].addr)
  }

  lemma BeginsIff(code: seq<Ins>, L: Layout, i: nat)
    requires IsLayout(code, L) && i < |code|
    ensures |L.head| == |code| && (L.head[i] <==> Begins(code, i))
    ensures i >= 1 ==> |L.closed| == |code| + 1 && (L.closed[i] <==> i >= 2 && Ends(code[i - 1]))
    ensures |L.targeted| == |code| && (L.targeted[i] <==> exists j :: 0 <= j < |code| && Names(code[j], code[i].addr))
  {
    hide Targeted, BranchSet;
    TargetedIff(code, code[i].addr);
    if i >= 2 {
      EndsIff(code[i - 1]);
    }
  }

  /** The second pass maps an instruction at which a block begins to a block of that address, and every other one
      to the block of the instruction before it. */
  lemma BlocksBegin(code: seq<Ins>, beyond: Addr, i: nat)
    requires Plausible(code, beyond) && i < |code|
    ensures var b := Scan(code, beyond).blockAt;
            && code[i].addr in b
            && (Begins(code, i) ==> b[code[i].addr] == code[i].addr)
            && (!Begins(code, i) ==> i > 0 && code[i - 1].addr in b && b[code[i].addr] == b[code[i - 1].addr])
  {
    hide Scan, BranchSet, Targeted, Begins, Plausible, IsLayout;
    CodeNotEmpty(code, beyond);
    var L := LayoutExists(code, beyond);
    BeginsIff(code, L, i);
    ScanMaps(code, beyond, L, i);
    if i > 0 {
      ScanMaps(code, beyond, L, i - 1);
    }
    FirstBegins(code);
  }

  lemma CodeNotEmpty(code: seq<Ins>, beyond: Addr)
    requires Plausible(code, beyond)
    ensures code != []
  {
  }

  lemma FirstBegins(code: seq<Ins>)
    requires code != []
    ensures Begins(code, 0)
  {
  }

  lemma ScanMaps(code: seq<Ins>, beyond: Addr, L: Layout, i: nat)
    requires Plausible(code, beyond) && IsLayout(code, L) && i < |code|
    ensures |L.start| == |L.head| == |code| && code[i].addr in Scan(code, beyond).blockAt
    ensures Scan(code, beyond).blockAt[code[i].addr] == L.start[i]
    ensures L.head[i] ==> L.start[i] == code[i].addr
    ensures !L.head[i] ==> i > 0 && L.start[i] == L.start[i - 1]
  {
    ScanEnds(code, beyond, L);
    hide Scan, BranchSet, Targeted, Stamped, Ended;
  }

  // ---------------------------------------------------------------- the edges

  /** Least of what is recorded for the instruction. */
  ghost predicate First(ins: Ins, m: Addr) {
    Enters(ins, m) && forall x | Enters(ins, x) :: m <= x
  }

  /** Least of what is recorded besides m. */
  ghost predicate Second(ins: Ins, m: Addr, x: Addr) {
    Enters(ins, x) && x != m && forall y | Enters(ins, y) && y != m :: x <= y
  }

  /** With m the least entry. */
  ghost predicate GoesFrom(ins: Ins, m: Addr, start: Addr, next: Addr, t: Addr) {
    if m == 1 || m == 4 then t == next
    else if m == 2 then t == 2
    else m != 5 && (t == m || Second(ins, m, t) || (m == start && t == next && forall x :: !Second(ins, m, x)))
  }

  /** Control gets from an instruction in the block that starts at `start`, in front of the one at `next`, to the
      block at t.  The least entry decides; a sole target that is the block's own start stands for a loop, behind
      which control may go on. */
  ghost predicate Goes(ins: Ins, start: Addr, next: Addr, t: Addr) {
    exists m :: First(ins, m) && GoesFrom(ins, m, start, next, t)
  }

  lemma FirstIsLeast(ins: Ins, m: Addr)
    requires Ends(ins)
    ensures BranchSet(ins) != {} && (First(ins, m) <==> m == Least(BranchSet(ins)))
  {
    hide BranchSet;
    EndsIff(ins);
    forall x ensures x in BranchSet(ins) <==> Enters(ins, x) {
      EntersIff(ins, x);
    }
  }

  lemma SecondIsLeast(ins: Ins, m: Addr, t: Addr)
    requires Enters(ins, m)
    ensures Second(ins, m, t) <==> BranchSet(ins) - {m} != {} && t == Least(BranchSet(ins) - {m})
  {
    hide BranchSet;
    forall x ensures x in BranchSet(ins) <==> Enters(ins, x) {
      EntersIff(ins, x);
    }
    var rest := BranchSet(ins) - {m};
    assert forall y | Enters(ins, y) && y != m :: y in rest;
    if rest != {} {
      assert Least(rest) in BranchSet(ins);
    }
  }

  lemma GoesFromIff(ins: Ins, m: Addr, start: Addr, next: Addr, t: Addr)
    requires Ends(ins) && First(ins, m)
    ensures BranchSet(ins) != {}
    ensures t in BranchTargets(BranchSet(ins), start, next) <==> GoesFrom(ins, m, start, next, t)
  {
    hide BranchSet, Enters;
    FirstIsLeast(ins, m);
    EntersIff(ins, m);
    FirstEnters(ins, m);
    var rest := BranchSet(ins) - {m};
    forall x ensures Second(ins, m, x) <==> rest != {} && x == Least(rest) {
      SecondIsLeast(ins, m, x);
    }
    assert rest == {} <==> BranchSet(ins) == {m};
    if rest != {} {
      assert Second(ins, m, Least(rest));
    }
  }

  lemma FirstEnters(ins: Ins, m: Addr)
    requires First(ins, m)
    ensures Enters(ins, m)
  {
  }

  lemma GoesIff(ins: Ins, start: Addr, next: Addr, t: Addr)
    requires Ends(ins)
    ensures BranchSet(ins) != {} && (t in BranchTargets(BranchSet(ins), start, next) <==> Goes(ins, start, next, t))
  {
    hide BranchSet, BranchTargets, First, GoesFrom;
    EndsIff(ins);
    var m := Least(BranchSet(ins));
    forall x ensures First(ins, x) <==> x == m {
      FirstIsLeast(ins, x);
    }
    assert First(ins, m);
    GoesFromIff(ins, m, start, next, t);
  }

  /** Instruction i is reached inside an open block, and another block begins there. */
  ghost predicate Falls(code: seq<Ins>, i: nat)
    requires 1 <= i < |code|
  {
    !(i >= 2 && Ends(code[i - 1])) && exists j :: 0 <= j < |code| && Names(code[j], code[i].addr)
  }

  ghost function BlockAt(code: seq<Ins>, beyond: Addr, i: nat): Addr
    requires Plausible(code, beyond) && i < |code|
  {
    BlocksBegin(code, beyond, i);
    Scan(code, beyond).blockAt[code[i].addr]
  }

  /** Reaching instruction i, control can get from the block at s to the block at t: by falling into it, or because
      i is a branch that goes there. */
  ghost predicate Follows(code: seq<Ins>, beyond: Addr, i: nat, s: Addr, t: Addr)
    requires Plausible(code, beyond) && 1 <= i < |code|
  {
    || (Falls(code, i) && s == BlockAt(code, beyond, i - 1) && t == code[i].addr)
    || (Ends(code[i]) && s == BlockAt(code, beyond, i) && Goes(code[i], s, NextAddr(code, i, beyond), t))
  }

  lemma BlockStarts(code: seq<Ins>, beyond: Addr, L: Layout, i: nat)
    requires Plausible(code, beyond) && IsLayout(code, L) && i < |code|
    ensures |L.start| == |code| && L.start[i] == BlockAt(code, beyond, i)
  {
    hide Scan, Plausible, IsLayout;
    ScanMaps(code, beyond, L, i);
  }

  lemma FallsIff(code: seq<Ins>, L: Layout, i: nat)
    requires IsLayout(code, L) && 1 <= i < |code|
    ensures |L.closed| == |code| + 1 && |L.targeted| == |code| == |L.addr| && L.addr[i] == code[i].addr
    ensures !L.closed[i] && L.targeted[i] <==> Falls(code, i)
  {
    hide Targeted, BranchSet, Ends, Names;
    BeginsIff(code, L, i);
  }

  lemma LeadsIff(code: seq<Ins>, beyond: Addr, L: Layout, i: nat, s: Addr, t: Addr)
    requires Plausible(code, beyond) && IsLayout(code, L) && 1 <= i < |code|
    ensures L.Valid() && |L.addr| == |code|
    ensures Leads(code, L, beyond, i, s, t) <==> Follows(code, beyond, i, s, t)
  {
    hide Scan, Plausible, IsLayout, Layout.Valid, BranchSet, BranchTargets, BlockAt, Goes, Falls, Ends;
    LayoutSizes(code, L);
    FallsIff(code, L, i);
    BlockStarts(code, beyond, L, i);
    BlockStarts(code, beyond, L, i - 1);
    EndsIff(code[i]);
    if Ends(code[i]) {
      GoesIff(code[i], L.start[i], NextAddr(code, i, beyond), t);
    }
  }

  lemma LayoutAddr(code: seq<Ins>, L: Layout, i: nat)
    requires IsLayout(code, L) && i < |code|
    ensures |L.addr| == |code| && L.addr[i] == code[i].addr
  {
  }

  /** The edges the scan finds, in terms of the instructions' fields. */
  lemma EdgesInFields(code: seq<Ins>, beyond: Addr, s: Addr, t: Addr)
    requires Plausible(code, beyond)
    ensures (s, t) in Scan(code, beyond).edges <==> exists i :: 1 <= i < |code| && Follows(code, beyond, i, s, t)
  {
    hide Scan, Leads, Follows;
    var L := LayoutExists(code, beyond);
    EdgesExactly(code, beyond, L, s, t);
    forall i | 1 <= i < |code| ensures L.Valid() && |L.addr| == |code|
      ensures Leads(code, L, beyond, i, s, t) <==> Follows(code, beyond, i, s, t)
    {
      LeadsIff(code, beyond, L, i, s, t);
    }
  }

  lemma EndsThere(code: seq<Ins>, beyond: Addr, L: Layout, i: nat)
    requires Plausible(code, beyond) && IsLayout(code, L) && 1 <= i < |code|
    ensures L.Valid() && |L.addr| == |code|
    ensures Ends(code[i]) ==> BranchesFrom(code, L, i, BlockAt(code, beyond, i))
    ensures Falls(code, i) ==> FallsFrom(L, i, BlockAt(code, beyond, i - 1))
  {
    hide Scan, Names, Ends;
    LayoutSizes(code, L);
    BeginsIff(code, L, i);
    ScanMaps(code, beyond, L, i);
    ScanMaps(code, beyond, L, i - 1);
    EndsIff(code[i]);
  }

  /** The block that instruction i ends, by a branch or by falling into the next block. */
  ghost predicate EndsAt(code: seq<Ins>, beyond: Addr, i: nat, s: Addr)
    requires Plausible(code, beyond) && 1 <= i < |code|
  {
    || (Ends(code[i]) && s == BlockAt(code, beyond, i))
    || (Falls(code, i) && s == BlockAt(code, beyond, i - 1))
  }

  /** A block ends once. */
  lemma OneEnd(code: seq<Ins>, beyond: Addr, i: nat, j: nat, s: Addr)
    requires Plausible(code, beyond) && 1 <= i < |code| && 1 <= j < |code|
    requires EndsAt(code, beyond, i, s) && EndsAt(code, beyond, j, s)
    ensures i == j
    ensures !(Ends(code[i]) && s == BlockAt(code, beyond, i) && Falls(code, i) && s == BlockAt(code, beyond, i - 1))
  {
    hide Ends, BlockAt, Falls, BranchesFrom, FallsFrom;
    var L := LayoutExists(code, beyond);
    EndsThere(code, beyond, L, i);
    EndsThere(code, beyond, L, j);
    EndsOnce(code, L, i, j, s);
  }

  /** Where the block leads that a branch ends. */
  lemma EdgesOfBranch(code: seq<Ins>, beyond: Addr, i: nat, t: Addr)
    requires Plausible(code, beyond) && 1 <= i < |code| && Ends(code[i])
    ensures var s := BlockAt(code, beyond, i);
            (s, t) in Scan(code, beyond).edges <==> Goes(code[i], s, NextAddr(code, i, beyond), t)
  {
    hide Scan, Goes, Ends, BlockAt, Falls;
    var s := BlockAt(code, beyond, i);
    EdgesInFields(code, beyond, s, t);
    assert EndsAt(code, beyond, i, s);
    if j :| 1 <= j < |code| && Follows(code, beyond, j, s, t) {
      OneEnd(code, beyond, i, j, s);
    }
    if Goes(code[i], s, NextAddr(code, i, beyond), t) {
      assert Follows(code, beyond, i, s, t);
    }
  }

  /** Where the block leads that falls into another. */
  lemma EdgesOfFall(code: seq<Ins>, beyond: Addr, i: nat, t: Addr)
    requires Plausible(code, beyond) && 1 <= i < |code| && Falls(code, i)
    ensures (BlockAt(code, beyond, i - 1), t) in Scan(code, beyond).edges <==> t == code[i].addr
  {
    hide Scan, Goes, Ends, BlockAt, Falls;
    var s := BlockAt(code, beyond, i - 1);
    EdgesInFields(code, beyond, s, t);
    assert EndsAt(code, beyond, i, s);
    if j :| 1 <= j < |code| && Follows(code, beyond, j, s, t) {
      OneEnd(code, beyond, i, j, s);
    }
    if t == code[i].addr {
      assert Follows(code, beyond, i, s, t);
    }
  }

  // ---------------------------------------------------------------- the kinds of branches

  /** The instruction is of one kind. */
  ghost predicate Ordinary(ins: Ins) {
    Unflagged(ins) && (ins.isBranch ==> !ins.isCall && !ins.isRet) && (ins.isCall ==> !ins.isRet)
  }

  /** Where each kind of branch leads: a call, direct or not, behind itself; a return to the return block; an indirect
      branch nowhere; a direct branch to its target and its fall-through, if it has one, and behind itself if it has
      no other target than its own block. */
  lemma EdgesByKind(code: seq<Ins>, beyond: Addr, i: nat, t: Addr)
    requires Plausible(code, beyond) && 1 <= i < |code| && Ends(code[i]) && Ordinary(code[i])
    ensures var ins, s := code[i], BlockAt(code, beyond, i);
            var next := if i + 1 < |code| then code[i + 1].addr else beyond;
            (s, t) in Scan(code, beyond).edges <==>
            || (ins.isCall && t == next)
            || (ins.isRet && t == 2)
            || (ins.isBranch && ins.isDirect &&
                (|| t == ins.target || (ins.hasFallThrough && t == ins.next)
                 || (t == next && ins.target == s && (ins.hasFallThrough ==> ins.next == ins.target))))
  {
    hide Scan, BlockAt;
    EdgesOfBranch(code, beyond, i, t);
    GoesByKind(code[i], BlockAt(code, beyond, i), NextAddr(code, i, beyond), t);
  }

  lemma GoesByKind(ins: Ins, start: Addr, next: Addr, t: Addr)
    requires Ends(ins) && Ordinary(ins)
    ensures Goes(ins, start, next, t) <==>
            || (ins.isCall && t == next)
            || (ins.isRet && t == 2)
            || (ins.isBranch && ins.isDirect &&
                (|| t == ins.target || (ins.hasFallThrough && t == ins.next)
                 || (t == next && ins.target == start && (ins.hasFallThrough ==> ins.next == ins.target))))
  {
    var m := if ins.isCall then (if ins.isDirect then 1 else 4)
             else if ins.isRet then 2
             else if !ins.isDirect then 5
             else if ins.hasFallThrough && ins.next < ins.target then ins.next else ins.target;
    assert First(ins, m);
    forall x | First(ins, x) ensures x == m {
    }
    if ins.isBranch && ins.isDirect {
      forall x ensures Second(ins, m, x) <==> x != m && (x == ins.target || (ins.hasFallThrough && x == ins.next)) {
      }
      assert ins.target != m ==> Second(ins, m, ins.target);
      assert ins.hasFallThrough && ins.next != m ==> Second(ins, m, ins.next);
    }
  }

  // ---------------------------------------------------------------- first and last addresses

  /** A block starts at the address it is named by and ends at the last instruction before the next one begins. */
  lemma BlockBounds(code: seq<Ins>, beyond: Addr, i: nat)
    requires Plausible(code, beyond) && i < |code| && (i + 1 < |code| ==> Begins(code, i + 1))
    ensures var c, s := Scan(code, beyond), BlockAt(code, beyond, i);
            && s in c.first && c.first[s] == s
            && s in c.last && c.last[s] == code[i].addr
  {
    hide Scan, Begins, BranchSet, Targeted;
    var L := LayoutExists(code, beyond);
    ScanMaps(code, beyond, L, i);
    LayoutAddr(code, L, i);
    if i + 1 < |code| {
      BeginsIff(code, L, i + 1);
    }
    ScanEnds(code, beyond, L);
  }
}
