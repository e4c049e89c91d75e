/** What engine calls and instructions do to registers and bytes, each named. */
module NamedEffects {
  import opened Taint
  import opened Plans
  import opened Instructions

  // ---------------------------------------------------------------- engine calls

  /** A write to register r changes the register at l: r itself, which holds, and the parts of four legacy registers
      and of R15D.  Writes to the stack and frame pointers are ignored. */
  ghost predicate Covers(r: Reg, l: Loc) {
    || (l == R(r) && r != ESP && r != EBP)
    || (r == EAX && l in {R(AX), R(AH), R(AL)})
    || (r == EBX && l in {R(BX), R(BH), R(BL)})
    || (r == ECX && l in {R(CX), R(CH), R(CL)})
    || (r == EDX && l in {R(DX), R(DH), R(DL)})
    || (r == R15D && l in {R(R15W), R(R15B)})
  }

  lemma RegisterCovers(r: Reg, l: Loc)
    ensures l in RegLocs(r) <==> Covers(r, l)
  {
    if l.R? {
      assert l in RegLocs(r) <==> l.reg in WrittenRegs(r);
    }
  }

  /** A register write reaches the registers it covers, and nothing else. */
  lemma RegisterWrite(s: State, r: Reg, xs: seq<Scratch>, l: Loc)
    ensures TaintOf(Apply(s, SetReg(r, xs)), l) == if Covers(r, l) then Written(s, xs) else TaintOf(s, l)
  {
    RegisterCovers(r, l);
    WriteAt(s, RegLocs(r), Written(s, xs), l);
  }

  /** Memory writes, of taint, of control taint and of a new mark, reach the bytes from start on, and nothing else. */
  lemma MemoryWrite(s: State, start: nat, size: nat, xs: seq<Scratch>, mark: nat, l: Loc)
    ensures var here := l.M? && start <= l.addr < start + size;
            && TaintOf(Apply(s, SetMem(start, size, xs)), l) == (if here then Written(s, xs) else TaintOf(s, l))
            && TaintOf(Apply(s, NewTaint(start, size, mark)), l) == (if here then {mark} else TaintOf(s, l))
            && TaintOf(Apply(s, ClearMem(start, size)), l) ==
               (if here && l in s then ControlOf(s) else TaintOf(s, l))
  {
    hide Written, ControlOf;
    WriteAt(s, MemLocs(start, size), Written(s, xs), l);
    WriteAt(s, MemLocs(start, size), {mark}, l);
    WriteAt(s, MemLocs(start, size) * s.Keys, ControlOf(s), l);
    InRange(start, size, l);
  }

  lemma InRange(start: nat, size: nat, l: Loc)
    ensures l in MemLocs(start, size) <==> l.M? && start <= l.addr < start + size
  {
  }

  /** What an operand holds: an immediate nothing, a range what one of its bytes holds. */
  lemma OperandHolds(s: State, op: Operand, m: nat)
    ensures m in TaintOfOperand(s, op) <==>
            match op
            case Register(r) => m in TaintOf(s, R(r))
            case Memory(start, size) => exists a: nat :: start <= a < start + size && m in TaintOf(s, M(a))
            case Immediate => false
  {
    if op.Memory? {
      UnionHas(s, MemLocs(op.start, op.size), m);
      if l :| l in MemLocs(op.start, op.size) && m in TaintOf(s, l) {
        assert m in TaintOf(s, M(l.addr));
      }
      if a: nat :| op.start <= a < op.start + op.size && m in TaintOf(s, M(a)) {
        assert M(a) in MemLocs(op.start, op.size);
      }
    }
  }

  /** Pending control taint is what some branch's entry holds. */
  lemma ControlHolds(s: State, m: nat)
    ensures m in ControlOf(s) <==> exists b: nat :: m in TaintOf(s, C(b))
  {
    ControlHas(s, m);
    if l: Loc :| l.C? && m in TaintOf(s, l) {
      assert m in TaintOf(s, C(l.branch));
    }
  }

  /** A push joins the taint of RFLAGS into the branch's entry, and changes the state if and only if that adds an entry
      or a mark. */
  lemma PushReadsFlags(s: State, b: nat, l: Loc)
    ensures var t := Apply(s, Push(b));
            && TaintOf(t, l) == (if l == C(b) then TaintOf(s, C(b)) + TaintOf(s, R(RFLAGS)) else TaintOf(s, l))
            && (l in t <==> l in s || (l == C(b) && TaintOf(s, R(RFLAGS)) != {}))
    ensures Apply(s, Push(b)) != s <==>
            TaintOf(s, R(RFLAGS)) != {} && (C(b) !in s || !(TaintOf(s, R(RFLAGS)) <= s[C(b)]))
  {
    var u := TaintOf(s, C(b)) + TaintOf(s, R(RFLAGS));
    WriteAt(s, {C(b)}, u, l);
    WriteAt(s, {C(b)}, u, C(b));
    WriteOne(s, C(b), u);
    if C(b) in s && TaintOf(s, R(RFLAGS)) <= s[C(b)] {
      assert u == s[C(b)];
    }
  }

  // ---------------------------------------------------------------- multiplication and division

  /** A 32-bit MUL gives EAX, EDX, their parts and EFLAGS the taint of EAX, the operand and pending control; RAX, RDX,
      RFLAGS and everything else keep theirs. */
  lemma Mul32(s: State, src: Operand, l: Loc)
    requires !l.S?
    ensures WellFormed(MUL(src, false))
    ensures TaintOf(After(s, MUL(src, false)), l) ==
            if l in {R(EAX), R(AX), R(AH), R(AL), R(EDX), R(DX), R(DH), R(DL), R(EFLAGS)}
            then TaintOf(s, R(EAX)) + TaintOfOperand(s, src) + ControlOf(s) else TaintOf(s, l)
  {
    hide TaintOfOperand, ControlOf, After, WellFormed, TaintOf, RegLocs, MUL;
    MulTaint(s, src, false, l);
    RegisterCovers(EAX, l);
    RegisterCovers(EDX, l);
  }

  /** A 64-bit MUL does the same with RAX, RDX and RFLAGS, and EAX, EDX and EFLAGS keep their taint. */
  lemma Mul64(s: State, src: Operand, l: Loc)
    requires !l.S?
    ensures WellFormed(MUL(src, true))
    ensures TaintOf(After(s, MUL(src, true)), l) ==
            if l in {R(RAX), R(RDX), R(RFLAGS)}
            then TaintOf(s, R(RAX)) + TaintOfOperand(s, src) + ControlOf(s) else TaintOf(s, l)
  {
    hide TaintOfOperand, ControlOf, After, WellFormed, TaintOf, RegLocs, MUL;
    MulTaint(s, src, true, l);
    RegisterCovers(RAX, l);
    RegisterCovers(RDX, l);
  }

  /** A 32-bit DIV gives EAX, EDX and their parts the taint of EAX, EDX, the operand and pending control, and leaves
      EFLAGS, if it has an entry, with pending control only. */
  lemma Div32(s: State, src: Operand, l: Loc)
    requires !l.S?
    ensures WellFormed(DIV(src, false))
    ensures TaintOf(After(s, DIV(src, false)), l) ==
            if l == R(EFLAGS) then (if l in s then ControlOf(s) else {})
            else if l in {R(EAX), R(AX), R(AH), R(AL), R(EDX), R(DX), R(DH), R(DL)}
            then TaintOf(s, R(EAX)) + TaintOf(s, R(EDX)) + TaintOfOperand(s, src) + ControlOf(s)
            else TaintOf(s, l)
  {
    hide TaintOfOperand, ControlOf, After, WellFormed, TaintOf, RegLocs, DIV;
    DivTaint(s, src, false, l);
    RegisterCovers(EAX, l);
    RegisterCovers(EDX, l);
  }

  lemma Div64(s: State, src: Operand, l: Loc)
    requires !l.S?
    ensures WellFormed(DIV(src, true))
    ensures TaintOf(After(s, DIV(src, true)), l) ==
            if l == R(RFLAGS) then (if l in s then ControlOf(s) else {})
            else if l in {R(RAX), R(RDX)}
            then TaintOf(s, R(RAX)) + TaintOf(s, R(RDX)) + TaintOfOperand(s, src) + ControlOf(s)
            else TaintOf(s, l)
  {
    hide TaintOfOperand, ControlOf, After, WellFormed, TaintOf, RegLocs, DIV;
    DivTaint(s, src, true, l);
    RegisterCovers(RAX, l);
    RegisterCovers(RDX, l);
  }

  /** The push behind a 64-bit MUL gives the branch the taint of RAX, of the operand and of pending control; the push
      behind a 64-bit DIV pending control at most. */
  lemma PushBehind64(s: State, src: Operand, b: nat)
    ensures WellFormed(MUL(src, true)) && WellFormed(DIV(src, true))
    ensures TaintOf(Apply(After(s, MUL(src, true)), Push(b)), C(b)) ==
            TaintOf(s, C(b)) + TaintOf(s, R(RAX)) + TaintOfOperand(s, src) + ControlOf(s)
    ensures TaintOf(Apply(After(s, DIV(src, true)), Push(b)), C(b)) ==
            TaintOf(s, C(b)) + if R(RFLAGS) in s then ControlOf(s) else {}
  {
    hide TaintOfOperand, ControlOf, After, WellFormed, TaintOf, MUL, DIV, Apply;
    Mul64(s, src, R(RFLAGS));
    Mul64(s, src, C(b));
    PushReadsFlags(After(s, MUL(src, true)), b, C(b));
    Div64(s, src, R(RFLAGS));
    Div64(s, src, C(b));
    PushReadsFlags(After(s, DIV(src, true)), b, C(b));
  }

  /** A 32-bit MUL or DIV makes no difference to the push behind it. */
  lemma PushBehind32(s: State, src: Operand, b: nat)
    ensures WellFormed(MUL(src, false)) && WellFormed(DIV(src, false))
    ensures TaintOf(Apply(After(s, MUL(src, false)), Push(b)), C(b)) == TaintOf(Apply(s, Push(b)), C(b))
    ensures TaintOf(Apply(After(s, DIV(src, false)), Push(b)), C(b)) == TaintOf(Apply(s, Push(b)), C(b))
  {
    hide TaintOfOperand, ControlOf, After, WellFormed, TaintOf, MUL, DIV, Apply;
    PushReadsFlags(s, b, C(b));
    Mul32(s, src, R(RFLAGS));
    Mul32(s, src, C(b));
    PushReadsFlags(After(s, MUL(src, false)), b, C(b));
    Div32(s, src, R(RFLAGS));
    Div32(s, src, C(b));
    PushReadsFlags(After(s, DIV(src, false)), b, C(b));
  }

  // ---------------------------------------------------------------- the stack

  /** The location is written by an assignment to the operand. */
  ghost predicate Reaches(op: Operand, l: Loc) {
    match op
    case Register(r) => Covers(r, l)
    case Memory(start, size) => l.M? && start <= l.addr < start + size
    case Immediate => false
  }

  lemma OperandReaches(op: Operand, l: Loc)
    ensures l in OperandLocs(op) <==> Reaches(op, l)
  {
    match op
    case Register(r) => RegisterCovers(r, l);
    case Memory(start, size) => InRange(start, size, l);
    case Immediate =>
  }

  /** PUSH of any operand gives the bytes on top of the stack its taint and pending control, and changes nothing
      else. */
  lemma PushTaint(s: State, src: Operand, start: nat, size: nat, l: Loc)
    requires !l.S?
    ensures WellFormed(PUSH(src, start, size))
    ensures TaintOf(After(s, PUSH(src, start, size)), l) ==
            if l.M? && start <= l.addr < start + size then TaintOfOperand(s, src) + ControlOf(s) else TaintOf(s, l)
  {
    hide TaintOfOperand, ControlOf, After, WellFormed, TaintOf, MemLocs, MOV;
    MovTaint(s, Memory(start, size), src, l);
    InRange(start, size, l);
  }

  /** POP into any register or range gives it the taint of the bytes on top of the stack and pending control, and
      changes nothing else. */
  lemma PopTaint(s: State, dest: Operand, start: nat, size: nat, l: Loc)
    requires !dest.Immediate? && !l.S?
    ensures WellFormed(POP(dest, start, size))
    ensures TaintOf(After(s, POP(dest, start, size)), l) ==
            if Reaches(dest, l) then TaintOfOperand(s, Memory(start, size)) + ControlOf(s) else TaintOf(s, l)
  {
    hide TaintOfOperand, ControlOf, After, WellFormed, TaintOf, OperandLocs, Reaches, MOV;
    MovTaint(s, dest, Memory(start, size), l);
    OperandReaches(dest, l);
  }
}
