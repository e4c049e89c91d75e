/** Taint propagation as a state machine over sets of marks.

    A location is a register, a byte of memory, the control-taint entry of a branch, or one of the
    scratch sets through which the instruction handlers pass taint.  An event is one call into the
    propagation engine. */
module Taint {

  /** The registers the engine treats specially, and all others. */
  datatype Reg =
    | ESP | EBP
    | EAX | AX | AH | AL
    | EBX | BX | BH | BL
    | ECX | CX | CH | CL
    | EDX | DX | DH | DL
    | R15D | R15W | R15B
    | RAX | RDX | EFLAGS | RFLAGS
    | OtherReg(id: nat)

  datatype Scratch = DEST | SRC | EAX_SET | EDX_SET | BASE | IDX | EFLAGS_SET | CNT | RAX_SET | RDX_SET | RFLAGS_SET

  datatype Loc = R(reg: Reg) | M(addr: nat) | C(branch: nat) | S(scratch: Scratch)

  // The flags register of a 64-bit build.
  const FLAGS: Reg := RFLAGS

  type Marks = set<nat>
  type State = map<Loc, Marks>

  datatype Event =
    | LoadReg(reg: Reg, into: Scratch)
    | LoadMem(start: nat, size: nat, into: Scratch)
    | ClearScratch(into: Scratch)
    | SetReg(reg: Reg, from: seq<Scratch>)
    | SetMem(start: nat, size: nat, from: seq<Scratch>)
    | ClearReg(reg: Reg)
    | ClearMem(start: nat, size: nat)
    | NewTaint(start: nat, size: nat, mark: nat)
    | Push(branch: nat)
    | Pop(branches: seq<nat>)

  function TaintOf(s: State, l: Loc): Marks {
    if l in s then s[l] else {}
  }

  /** The registers that hold part of another register and are written with it. */
  function Subregisters(r: Reg): set<Reg> {
    match r
    case R15D => {R15W, R15B}
    case EAX => {AX, AH, AL}
    case EBX => {BX, BH, BL}
    case ECX => {CX, CH, CL}
    case EDX => {DX, DH, DL}
    case _ => {}
  }

  /** What a write to register r writes: nothing for the stack and frame pointers. */
  function WrittenRegs(r: Reg): set<Reg> {
    if r == ESP || r == EBP then {} else {r} + Subregisters(r)
  }

  function RegLocs(r: Reg): set<Loc> {
    set x | x in WrittenRegs(r) :: R(x)
  }

  function MemLocs(start: nat, size: nat): set<Loc> {
    set a | start <= a < start + size :: M(a)
  }

  function ScratchLocs(xs: seq<Scratch>): set<Loc> {
    set x | x in xs :: S(x)
  }

  /** The union of the taint of some locations. */
  function UnionOf(s: State, ls: set<Loc>): Marks {
    set l, m | l in ls && l in s && m in s[l] :: m
  }

  /** The union of all pending control entries. */
  function ControlOf(s: State): Marks {
    set l, m | l in s && l.C? && m in s[l] :: m
  }

  /** The taint that a write from some scratch sets writes: theirs and all pending control taint. */
  function Written(s: State, xs: seq<Scratch>): Marks {
    UnionOf(s, ScratchLocs(xs)) + ControlOf(s)
  }

  function Write(s: State, ls: set<Loc>, t: Marks): State {
    s + map l | l in ls :: t
  }

  /** Removes the listed control entries up to the first that is not pending. */
  function PopAll(s: State, bs: seq<nat>): State {
    if bs == [] || C(bs[0]) !in s then s else PopAll(s - {C(bs[0])}, bs[1..])
  }

  function Apply(s: State, e: Event): State {
    match e
    case LoadReg(r, x) => Write(s, {S(x)}, TaintOf(s, R(r)))
    case LoadMem(start, size, x) => Write(s, {S(x)}, UnionOf(s, MemLocs(start, size)))
    case ClearScratch(x) => Write(s, {S(x)}, {})
    case SetReg(r, xs) => Write(s, RegLocs(r), Written(s, xs))
    case SetMem(start, size, xs) => Write(s, MemLocs(start, size), Written(s, xs))
    case ClearReg(r) => Write(s, {R(r)} * s.Keys, ControlOf(s))
    case ClearMem(start, size) => Write(s, MemLocs(start, size) * s.Keys, ControlOf(s))
    case NewTaint(start, size, m) => Write(s, MemLocs(start, size), {m})
    case Push(b) =>
      if TaintOf(s, R(FLAGS)) == {} then s else Write(s, {C(b)}, TaintOf(s, C(b)) + TaintOf(s, R(FLAGS)))
    case Pop(bs) => PopAll(s, bs)
  }

  /** The state after the first n events. */
  function Run(s: State, es: seq<Event>, n: nat): State
    requires n <= |es|
  {
    if n == 0 then s else Apply(Run(s, es, n - 1), es[n - 1])
  }

  /** What is appended to a sequence of events does not change the states before. */
  lemma {:induction false} RunOfPrefix(s: State, es: seq<Event>, fs: seq<Event>, n: nat)
    requires n <= |es|
    ensures Run(s, es + fs, n) == Run(s, es, n)
  {
    hide Apply;
    if n > 0 {
      RunOfPrefix(s, es, fs, n - 1);
    }
  }

  /** A run of two sequences is the run of the second from where the first ends. */
  lemma {:induction false} RunOfBoth(s: State, es: seq<Event>, fs: seq<Event>, n: nat)
    requires n <= |fs|
    ensures Run(s, es + fs, |es| + n) == Run(Run(s, es, |es|), fs, n)
  {
    hide Apply;
    if n > 0 {
      RunOfBoth(s, es, fs, n - 1);
    } else {
      RunOfPrefix(s, es, fs, |es|);
    }
  }

  lemma WriteAt(s: State, ls: set<Loc>, t: Marks, l: Loc)
    ensures TaintOf(Write(s, ls, t), l) == if l in ls then t else TaintOf(s, l)
    ensures l in Write(s, ls, t) <==> l in s || l in ls
  {
  }

  // ---------------------------------------------------------------- location by location

  lemma ControlHas(s: State, m: nat)
    ensures m in ControlOf(s) <==> exists l: Loc :: l.C? && m in TaintOf(s, l)
  {
  }

  lemma UnionHas(s: State, ls: set<Loc>, m: nat)
    ensures m in UnionOf(s, ls) <==> exists l :: l in ls && m in TaintOf(s, l)
  {
  }

  lemma UnionStep(s: State, ls: set<Loc>, l: Loc)
    ensures UnionOf(s, ls + {l}) == UnionOf(s, ls) + TaintOf(s, l)
  {
  }

  lemma WriteStep(s: State, ls: set<Loc>, l: Loc, t: Marks)
    ensures Write(s, ls, t)[l := t] == Write(s, ls + {l}, t)
  {
  }

  lemma WriteNothing(s: State, t: Marks)
    ensures Write(s, {}, t) == s
  {
  }

  lemma WriteOne(s: State, l: Loc, t: Marks)
    ensures Write(s, {l}, t) == s[l := t]
  {
  }

  lemma WriteIfHeld(s: State, l: Loc, t: Marks)
    ensures Write(s, {l} * s.Keys, t) == if l in s then s[l := t] else s
  {
    if l in s {
      assert {l} * s.Keys == {l};
    } else {
      assert {l} * s.Keys == {};
    }
  }

  lemma ApplyNewTaint(s: State, addr: nat, mark: nat)
    ensures Apply(s, NewTaint(addr, 1, mark)) == s[M(addr) := {mark}]
  {
    assert MemLocs(addr, 1) == {M(addr)};
    WriteOne(s, M(addr), {mark});
  }

  lemma ApplySetMem(s: State, start: nat, size: nat, from: seq<Scratch>)
    ensures Apply(s, SetMem(start, size, from)) == Write(s, MemLocs(start, size), Written(s, from))
  {
    hide Write, Written;
  }

  lemma UpdateTwice(s: State, l: Loc, t: Marks, u: Marks)
    ensures s[l := t][l := u] == s[l := u]
  {
  }

  /** Those of one more location that hold taint. */
  lemma KeysStep(s: State, ls: set<Loc>, l: Loc)
    ensures (ls + {l}) * s.Keys == if l in s then ls * s.Keys + {l} else ls * s.Keys
  {
  }

  lemma PopStep(s: State, bs: seq<nat>, i: nat)
    requires i <= |bs|
    ensures PopAll(s, bs[i..]) ==
            if i < |bs| && C(bs[i]) in s then PopAll(s - {C(bs[i])}, bs[i + 1..]) else s
  {
    if i < |bs| {
      assert bs[i..][1..] == bs[i + 1..];
    }
  }

  lemma NoLocs(s: State, start: nat)
    ensures UnionOf(s, {}) == {} && MemLocs(start, 0) == {} && ScratchLocs([]) == {} && {} * s.Keys == {}
  {
  }

  lemma MemLocsStep(start: nat, size: nat)
    ensures MemLocs(start, size + 1) == MemLocs(start, size) + {M(start + size)}
    ensures M(start + size) !in MemLocs(start, size)
  {
  }

  lemma ScratchLocsStep(xs: seq<Scratch>, i: nat)
    requires i < |xs|
    ensures ScratchLocs(xs[..i + 1]) == ScratchLocs(xs[..i]) + {S(xs[i])}
  {
    assert xs[..i + 1] == xs[..i] + [xs[i]];
  }

  /** Writing the subregisters one after the other, then the register itself. */
  lemma WriteRegister(s: State, r: Reg, t: Marks)
    ensures Write(s, RegLocs(r), t) ==
            match r
            case ESP => s
            case EBP => s
            case R15D => s[R(R15W) := t][R(R15B) := t][R(R15D) := t]
            case EAX => s[R(AX) := t][R(AH) := t][R(AL) := t][R(EAX) := t]
            case EBX => s[R(BX) := t][R(BH) := t][R(BL) := t][R(EBX) := t]
            case ECX => s[R(CX) := t][R(CH) := t][R(CL) := t][R(ECX) := t]
            case EDX => s[R(DX) := t][R(DH) := t][R(DL) := t][R(EDX) := t]
            case _ => s[R(r) := t]
  {
    hide Write;
    match r
    case ESP =>
      assert RegLocs(r) == {};
      WriteNothing(s, t);
    case EBP =>
      assert RegLocs(r) == {};
      WriteNothing(s, t);
    case R15D =>
      assert RegLocs(r) == {R(R15W), R(R15B), R(R15D), R(R15D)};
      WriteFour(s, R(R15W), R(R15B), R(R15D), R(R15D), t);
      UpdateTwice(s[R(R15W) := t][R(R15B) := t], R(R15D), t, t);
    case EAX =>
      assert RegLocs(r) == {R(AX), R(AH), R(AL), R(EAX)};
      WriteFour(s, R(AX), R(AH), R(AL), R(EAX), t);
    case EBX =>
      assert RegLocs(r) == {R(BX), R(BH), R(BL), R(EBX)};
      WriteFour(s, R(BX), R(BH), R(BL), R(EBX), t);
    case ECX =>
      assert RegLocs(r) == {R(CX), R(CH), R(CL), R(ECX)};
      WriteFour(s, R(CX), R(CH), R(CL), R(ECX), t);
    case EDX =>
      assert RegLocs(r) == {R(DX), R(DH), R(DL), R(EDX)};
      WriteFour(s, R(DX), R(DH), R(DL), R(EDX), t);
    case _ =>
      assert RegLocs(r) == {R(r)};
      WriteOne(s, R(r), t);
  }

  lemma WriteFour(s: State, k0: Loc, k1: Loc, k2: Loc, k3: Loc, t: Marks)
    ensures Write(s, {k0, k1, k2, k3}, t) == s[k0 := t][k1 := t][k2 := t][k3 := t]
  {
  }

  // ---------------------------------------------------------------- popping control entries

  /** The number of listed branches that come before the first one not pending when its turn comes. */
  function Pending(s: State, bs: seq<nat>): (k: nat)
    ensures k <= |bs|
  {
    if bs == [] || C(bs[0]) !in s then 0 else 1 + Pending(s - {C(bs[0])}, bs[1..])
  }

  function BranchLocs(bs: seq<nat>): set<Loc> {
    set b | b in bs :: C(b)
  }

  /** PopControl removes exactly the listed branches before the first one not pending: all of these
      were pending and are listed once among them, and the next one, if any, is absent or was just
      removed. */
  lemma {:induction false} PopRemovesPendingPrefix(s: State, bs: seq<nat>)
    ensures var k := Pending(s, bs);
            && PopAll(s, bs) == s - BranchLocs(bs[..k])
            && (forall i | 0 <= i < k :: C(bs[i]) in s && bs[i] !in bs[..i])
            && (k < |bs| ==> C(bs[k]) !in s || bs[k] in bs[..k])
  {
    hide BranchLocs;
    if bs != [] && C(bs[0]) in s {
      var s', k := s - {C(bs[0])}, Pending(s, bs);
      PopRemovesPendingPrefix(s', bs[1..]);
      BranchLocsFirst(bs, k);
      forall i | 0 < i < k ensures C(bs[i]) in s && bs[i] !in bs[..i] {
        ListedBefore(bs, i);
      }
      if k < |bs| {
        ListedBefore(bs, k);
      }
    } else {
      NoBranchLocs();
    }
  }

  lemma NoBranchLocs()
    ensures BranchLocs([]) == {}
  {
  }

  lemma BranchLocsFirst(bs: seq<nat>, k: nat)
    requires 0 < k <= |bs|
    ensures BranchLocs(bs[..k]) == {C(bs[0])} + BranchLocs(bs[1..][..k - 1])
  {
    assert bs[..k] == [bs[0]] + bs[1..][..k - 1];
  }

  lemma ListedBefore(bs: seq<nat>, i: nat)
    requires 0 < i < |bs|
    ensures bs[i] == bs[1..][i - 1]
    ensures bs[i] in bs[..i] <==> bs[i] == bs[0] || bs[i] in bs[1..][..i - 1]
  {
    assert bs[..i] == [bs[0]] + bs[1..][..i - 1];
  }

  /** When all listed branches are pending and listed once, all are removed. */
  lemma {:induction false} PopRemovesAllPending(s: State, bs: seq<nat>)
    requires forall b | b in bs :: C(b) in s
    requires forall i, j | 0 <= i < j < |bs| :: bs[i] != bs[j]
    ensures PopAll(s, bs) == s - BranchLocs(bs)
  {
    PopRemovesPendingPrefix(s, bs);
    var k := Pending(s, bs);
    if k == |bs| {
      assert bs[..k] == bs;
    }
  }

  /** A pop of distinct branches leaves none of them pending if and only if no pending one is listed behind
      one that is not. */
  lemma PopClearsAllIff(s: State, bs: seq<nat>)
    requires forall i, j | 0 <= i < j < |bs| :: bs[i] != bs[j]
    ensures (forall b | b in bs :: C(b) !in PopAll(s, bs)) <==>
            (forall i, j | 0 <= i < j < |bs| && C(bs[j]) in s :: C(bs[i]) in s)
  {
    PopRemovesPendingPrefix(s, bs);
    var k := Pending(s, bs);
    assert forall i | 0 <= i < |bs| :: C(bs[i]) in BranchLocs(bs[..k]) <==> i < k;
    if k < |bs| {
      assert C(bs[k]) !in s;
    }
  }

  lemma PopAt(s: State, bs: seq<nat>, l: Loc)
    ensures l in PopAll(s, bs) <==> l in s && l !in BranchLocs(bs[..Pending(s, bs)])
    ensures l in PopAll(s, bs) ==> PopAll(s, bs)[l] == s[l]
  {
    PopRemovesPendingPrefix(s, bs);
  }

  // ---------------------------------------------------------------- control entries over whole runs

  /** No pending control entry is empty. */
  ghost predicate ControlNonEmpty(s: State) {
    forall l | l in s && l.C? :: s[l] != {}
  }

  lemma StepControl(s: State, e: Event, b: nat)
    requires ControlNonEmpty(s)
    ensures ControlNonEmpty(Apply(s, e))
    ensures C(b) in s && C(b) in Apply(s, e) ==> s[C(b)] <= Apply(s, e)[C(b)]
    ensures C(b) in s && C(b) !in Apply(s, e) ==> e.Pop? && b in e.branches
  {
    if e.Pop? {
      PopRemovesPendingPrefix(s, e.branches);
    }
  }

  /** In every run from a state without empty entries, an entry is never empty, and it only grows as
      long as no pop lists its branch. */
  lemma {:induction false} ControlOnlyGrows(s: State, es: seq<Event>, i: nat, n: nat, b: nat)
    requires ControlNonEmpty(s) && i <= n <= |es|
    requires forall k | i <= k < n && es[k].Pop? :: b !in es[k].branches
    ensures ControlNonEmpty(Run(s, es, n))
    ensures C(b) in Run(s, es, i) ==> C(b) in Run(s, es, n) && Run(s, es, i)[C(b)] <= Run(s, es, n)[C(b)]
    decreases n
  {
    hide Apply, ControlNonEmpty;
    if n > 0 {
      if i < n {
        ControlOnlyGrows(s, es, i, n - 1, b);
      } else {
        ControlOnlyGrows(s, es, n - 1, n - 1, b);
      }
      StepControl(Run(s, es, n - 1), es[n - 1], b);
    }
  }
}
