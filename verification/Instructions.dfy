/** The instruction handlers: each acts as a simultaneous assignment over taint sets. */
module Instructions {
  import opened Taint
  import opened Plans

  ghost function ADD(dest: Operand, src: Operand): Plan {
    Plan([Load(dest, DEST), Load(src, SRC)],
         [Assign(dest, [DEST, SRC]), Assign(Register(FLAGS), [DEST, SRC])])
  }

  ghost function ADC(dest: Operand, src: Operand): Plan {
    Plan([Load(dest, DEST), Load(src, SRC), Load(Register(FLAGS), EFLAGS_SET)],
         [Assign(dest, [DEST, SRC, EFLAGS_SET]), Assign(Register(FLAGS), [DEST, SRC, EFLAGS_SET])])
  }

  /** A register combined with itself is cleared instead. */
  ghost function XOR(dest: Operand, src: Operand): Plan {
    if dest.Register? && dest == src then
      Plan([Load(dest, DEST), Load(src, SRC)], [Clear(dest.reg), Assign(Register(FLAGS), [DEST, SRC])])
    else ADD(dest, src)
  }

  ghost function XCHG(dest: Operand, src: Operand): Plan {
    Plan([Load(dest, DEST), Load(src, SRC)], [Assign(dest, [SRC]), Assign(src, [DEST])])
  }

  ghost function XADD(dest: Operand, src: Reg): Plan {
    Plan([Load(dest, DEST), Load(Register(src), SRC)],
         [Assign(dest, [DEST, SRC]), Assign(Register(src), [DEST]), Assign(Register(FLAGS), [DEST, SRC])])
  }

  // The registers that a multiplication or division of the given width uses.
  function AxOf(wide: bool): Reg { if wide then RAX else EAX }
  function DxOf(wide: bool): Reg { if wide then RDX else EDX }
  function FlagsOf(wide: bool): Reg { if wide then RFLAGS else EFLAGS }
  function AxSet(wide: bool): Scratch { if wide then RAX_SET else EAX_SET }
  function DxSet(wide: bool): Scratch { if wide then RDX_SET else EDX_SET }

  ghost function MUL(src: Operand, wide: bool): Plan {
    var from := [AxSet(wide), SRC];
    Plan([Load(src, SRC), Load(Register(AxOf(wide)), AxSet(wide))],
         [Assign(Register(AxOf(wide)), from), Assign(Register(DxOf(wide)), from),
          Assign(Register(FlagsOf(wide)), from)])
  }

  ghost function DIV(src: Operand, wide: bool): Plan {
    var from := [AxSet(wide), DxSet(wide), SRC];
    Plan([Load(src, SRC), Load(Register(AxOf(wide)), AxSet(wide)), Load(Register(DxOf(wide)), DxSet(wide))],
         [Assign(Register(AxOf(wide)), from), Assign(Register(DxOf(wide)), from), Clear(FlagsOf(wide))])
  }

  ghost function MOV(dest: Operand, src: Operand): Plan {
    Plan([Load(src, SRC)], [Assign(dest, [SRC])])
  }

  /** As a move to the top of the stack. */
  ghost function PUSH(src: Operand, start: nat, size: nat): Plan {
    MOV(Memory(start, size), src)
  }

  /** As a move from the top of the stack. */
  ghost function POP(dest: Operand, start: nat, size: nat): Plan {
    MOV(dest, Memory(start, size))
  }

  ghost function LEA(dest: Reg, base: Reg, index: Reg): Plan {
    Plan([Load(Register(base), BASE), Load(Register(index), IDX)], [Assign(Register(dest), [BASE, IDX])])
  }

  /** ADD: destination and flags get the union of both operands. */
  lemma AddTaint(s: State, dest: Operand, src: Operand, l: Loc)
    requires !dest.Immediate? && !l.S?
    ensures WellFormed(ADD(dest, src))
    ensures TaintOf(After(s, ADD(dest, src)), l) ==
            if l in OperandLocs(dest) || l == R(FLAGS)
            then TaintOfOperand(s, dest) + TaintOfOperand(s, src) + ControlOf(s) else TaintOf(s, l)
  {
    hide TaintOfOperand, ControlOf, SourceMarks, After, UnionOf, Run, Apply;
    var p := ADD(dest, src);
    assert p.loads[0].into == DEST && p.loads[1].into == SRC;
    AfterAll(s, p, l);
    AssignedStep(s, p, 1, l);
    AssignedStep(s, p, 0, l);
    TwoSources(s, p, 0, 1, DEST, SRC);
    assert RegLocs(FLAGS) == {R(FLAGS)};
  }

  /** ADC: destination and flags get the union of both operands and the flags. */
  lemma AdcTaint(s: State, dest: Operand, src: Operand, l: Loc)
    requires !dest.Immediate? && !l.S?
    ensures WellFormed(ADC(dest, src))
    ensures TaintOf(After(s, ADC(dest, src)), l) ==
            if l in OperandLocs(dest) || l == R(FLAGS)
            then TaintOfOperand(s, dest) + TaintOfOperand(s, src) + TaintOf(s, R(FLAGS)) + ControlOf(s)
            else TaintOf(s, l)
  {
    hide TaintOfOperand, ControlOf, SourceMarks, After, UnionOf, Run, Apply;
    var p := ADC(dest, src);
    assert p.loads[0].into == DEST && p.loads[1].into == SRC && p.loads[2].into == EFLAGS_SET;
    AfterAll(s, p, l);
    AssignedStep(s, p, 1, l);
    AssignedStep(s, p, 0, l);
    ThreeSources(s, p, 0, 1, 2, DEST, SRC, EFLAGS_SET);
    RegisterTaint(s, FLAGS);
    assert RegLocs(FLAGS) == {R(FLAGS)};
  }

  /** XOR of a register with itself: the register is left with control taint only (an untainted one
      without an entry stays without), and the flags get what it held. */
  lemma XorSelfTaint(s: State, r: Reg, l: Loc)
    requires !l.S?
    ensures WellFormed(XOR(Register(r), Register(r)))
    ensures TaintOf(After(s, XOR(Register(r), Register(r))), l) ==
            if l == R(FLAGS) then TaintOf(s, R(r)) + ControlOf(s)
            else if l == R(r) then (if R(r) in s then ControlOf(s) else {})
            else TaintOf(s, l)
  {
    hide TaintOfOperand, ControlOf, SourceMarks, After, UnionOf, Run, Apply;
    var p := XOR(Register(r), Register(r));
    assert p.loads[0].into == DEST && p.loads[1].into == SRC;
    AfterAll(s, p, l);
    AssignedStep(s, p, 1, l);
    AssignedStep(s, p, 0, l);
    TwoSources(s, p, 0, 1, DEST, SRC);
    RegisterTaint(s, r);
    assert RegLocs(FLAGS) == {R(FLAGS)};
  }

  /** XOR of different operands: destination and flags get the union of both, as for ADD. */
  lemma XorTaint(s: State, dest: Operand, src: Operand, l: Loc)
    requires !dest.Immediate? && !(dest.Register? && dest == src) && !l.S?
    ensures WellFormed(XOR(dest, src))
    ensures TaintOf(After(s, XOR(dest, src)), l) ==
            if l in OperandLocs(dest) || l == R(FLAGS)
            then TaintOfOperand(s, dest) + TaintOfOperand(s, src) + ControlOf(s) else TaintOf(s, l)
  {
    hide TaintOfOperand, ControlOf, After, WellFormed, OperandLocs, ADD;
    AddTaint(s, dest, src, l);
  }

  /** XCHG: each operand gets what the other held; where they overlap the second one's write stays. */
  lemma XchgTaint(s: State, dest: Operand, src: Operand, l: Loc)
    requires !dest.Immediate? && !src.Immediate? && !l.S?
    ensures WellFormed(XCHG(dest, src))
    ensures TaintOf(After(s, XCHG(dest, src)), l) ==
            if l in OperandLocs(src) then TaintOfOperand(s, dest) + ControlOf(s)
            else if l in OperandLocs(dest) then TaintOfOperand(s, src) + ControlOf(s)
            else TaintOf(s, l)
  {
    hide TaintOfOperand, ControlOf, SourceMarks, After, UnionOf, Run, Apply;
    var p := XCHG(dest, src);
    assert p.loads[0].into == DEST && p.loads[1].into == SRC;
    AfterAll(s, p, l);
    AssignedStep(s, p, 1, l);
    AssignedStep(s, p, 0, l);
    OneSource(s, p, 0, DEST);
    OneSource(s, p, 1, SRC);
  }

  /** XADD: the destination and the flags get the union, the source register what the destination held. */
  lemma XaddTaint(s: State, dest: Operand, src: Reg, l: Loc)
    requires !dest.Immediate? && !l.S?
    ensures WellFormed(XADD(dest, src))
    ensures TaintOf(After(s, XADD(dest, src)), l) ==
            if l == R(FLAGS) then TaintOfOperand(s, dest) + TaintOf(s, R(src)) + ControlOf(s)
            else if l in RegLocs(src) then TaintOfOperand(s, dest) + ControlOf(s)
            else if l in OperandLocs(dest) then TaintOfOperand(s, dest) + TaintOf(s, R(src)) + ControlOf(s)
            else TaintOf(s, l)
  {
    hide TaintOfOperand, ControlOf, SourceMarks, After, UnionOf, Run, Apply;
    var p := XADD(dest, src);
    assert p.loads[0].into == DEST && p.loads[1].into == SRC;
    AfterAll(s, p, l);
    AssignedStep(s, p, 2, l);
    AssignedStep(s, p, 1, l);
    AssignedStep(s, p, 0, l);
    OneSource(s, p, 0, DEST);
    TwoSources(s, p, 0, 1, DEST, SRC);
    RegisterTaint(s, src);
    assert RegLocs(FLAGS) == {R(FLAGS)};
  }

  lemma FlagsLocs(wide: bool)
    ensures RegLocs(FlagsOf(wide)) == {R(FlagsOf(wide))}
    ensures R(FlagsOf(wide)) !in RegLocs(AxOf(wide)) && R(FlagsOf(wide)) !in RegLocs(DxOf(wide))
  {
  }

  /** MUL: accumulator, data register and flags get the union of accumulator and operand. */
  lemma MulTaint(s: State, src: Operand, wide: bool, l: Loc)
    requires !l.S?
    ensures WellFormed(MUL(src, wide))
    ensures TaintOf(After(s, MUL(src, wide)), l) ==
            if l in RegLocs(AxOf(wide)) || l in RegLocs(DxOf(wide)) || l == R(FlagsOf(wide))
            then TaintOf(s, R(AxOf(wide))) + TaintOfOperand(s, src) + ControlOf(s) else TaintOf(s, l)
  {
    hide RegLocs, TaintOfOperand, ControlOf, SourceMarks, After, UnionOf, Run, Apply;
    var p := MUL(src, wide);
    assert p.loads[0].into == SRC && p.loads[1].into == AxSet(wide);
    AfterAll(s, p, l);
    AssignedStep(s, p, 2, l);
    AssignedStep(s, p, 1, l);
    AssignedStep(s, p, 0, l);
    TwoSources(s, p, 1, 0, AxSet(wide), SRC);
    RegisterTaint(s, AxOf(wide));
    FlagsLocs(wide);
  }

  /** DIV: accumulator and data register get the union of both and the operand; the flags, if they
      have an entry, are left with control taint only. */
  lemma DivTaint(s: State, src: Operand, wide: bool, l: Loc)
    requires !l.S?
    ensures WellFormed(DIV(src, wide))
    ensures TaintOf(After(s, DIV(src, wide)), l) ==
            if l == R(FlagsOf(wide)) then (if l in s then ControlOf(s) else {})
            else if l in RegLocs(AxOf(wide)) || l in RegLocs(DxOf(wide))
            then TaintOf(s, R(AxOf(wide))) + TaintOf(s, R(DxOf(wide))) + TaintOfOperand(s, src) + ControlOf(s)
            else TaintOf(s, l)
  {
    hide RegLocs, TaintOfOperand, ControlOf, SourceMarks, After, UnionOf, Run, Apply;
    var p := DIV(src, wide);
    assert p.loads[0].into == SRC && p.loads[1].into == AxSet(wide) && p.loads[2].into == DxSet(wide);
    AfterAll(s, p, l);
    AssignedStep(s, p, 2, l);
    AssignedStep(s, p, 1, l);
    AssignedStep(s, p, 0, l);
    ThreeSources(s, p, 1, 2, 0, AxSet(wide), DxSet(wide), SRC);
    RegisterTaint(s, AxOf(wide));
    RegisterTaint(s, DxOf(wide));
    FlagsLocs(wide);
  }

  /** PUSH, POP and MOV: the destination gets what the source held. */
  lemma MovTaint(s: State, dest: Operand, src: Operand, l: Loc)
    requires !dest.Immediate? && !l.S?
    ensures WellFormed(MOV(dest, src))
    ensures TaintOf(After(s, MOV(dest, src)), l) ==
            if l in OperandLocs(dest) then TaintOfOperand(s, src) + ControlOf(s) else TaintOf(s, l)
  {
    hide TaintOfOperand, ControlOf, SourceMarks, After, UnionOf, Run, Apply;
    var p := MOV(dest, src);
    assert p.loads[0].into == SRC;
    AfterAll(s, p, l);
    AssignedStep(s, p, 0, l);
    OneSource(s, p, 0, SRC);
  }

  /** LEA: the destination gets the union of the address registers. */
  lemma LeaTaint(s: State, dest: Reg, base: Reg, index: Reg, l: Loc)
    requires !l.S?
    ensures WellFormed(LEA(dest, base, index))
    ensures TaintOf(After(s, LEA(dest, base, index)), l) ==
            if l in RegLocs(dest) then TaintOf(s, R(base)) + TaintOf(s, R(index)) + ControlOf(s) else TaintOf(s, l)
  {
    hide TaintOfOperand, ControlOf, SourceMarks, After, UnionOf, Run, Apply;
    var p := LEA(dest, base, index);
    assert p.loads[0].into == BASE && p.loads[1].into == IDX;
    AfterAll(s, p, l);
    AssignedStep(s, p, 0, l);
    TwoSources(s, p, 0, 1, BASE, IDX);
    RegisterTaint(s, base);
    RegisterTaint(s, index);
  }

  // ---------------------------------------------------------------- round trips

  /** Operands that a write reaches: any memory range but the empty one, any register but the stack and
      frame pointers. */
  ghost predicate Writable(op: Operand) {
    match op
    case Register(r) => r != ESP && r != EBP
    case Memory(_, size) => size > 0
    case Immediate => false
  }

  /** An operand all of whose locations hold t holds t. */
  lemma UniformTaint(s: State, op: Operand, t: Marks)
    requires Writable(op) && forall l | l in OperandLocs(op) :: TaintOf(s, l) == t
    ensures TaintOfOperand(s, op) == t
  {
    match op
    case Register(r) => assert R(r) in RegLocs(r);
    case Memory(start, size) =>
      assert M(start) in MemLocs(start, size);
      forall m ensures m in UnionOf(s, MemLocs(start, size)) <==> m in t {
        UnionHas(s, MemLocs(start, size), m);
      }
  }

  /** After an exchange of operands that do not overlap each holds what the other held, and control taint. */
  lemma XchgSwaps(s: State, dest: Operand, src: Operand)
    requires Writable(dest) && Writable(src) && OperandLocs(dest) !! OperandLocs(src)
    ensures WellFormed(XCHG(dest, src))
    ensures TaintOfOperand(After(s, XCHG(dest, src)), dest) == TaintOfOperand(s, src) + ControlOf(s)
    ensures TaintOfOperand(After(s, XCHG(dest, src)), src) == TaintOfOperand(s, dest) + ControlOf(s)
    ensures ControlOf(After(s, XCHG(dest, src))) == ControlOf(s)
  {
    hide TaintOfOperand, ControlOf, UnionOf, After, WellFormed;
    var p := XCHG(dest, src);
    XchgTaint(s, dest, src, R(ESP));
    forall l | l in OperandLocs(dest) + OperandLocs(src)
      ensures TaintOf(After(s, p), l) ==
              if l in OperandLocs(src) then TaintOfOperand(s, dest) + ControlOf(s)
              else TaintOfOperand(s, src) + ControlOf(s)
    {
      XchgTaint(s, dest, src, l);
    }
    UniformTaint(After(s, p), dest, TaintOfOperand(s, src) + ControlOf(s));
    UniformTaint(After(s, p), src, TaintOfOperand(s, dest) + ControlOf(s));
    ControlKept(s, p);
  }

  /** XCHG twice restores the taint of both operands, up to the pending control taint. */
  lemma XchgTwice(s: State, dest: Operand, src: Operand)
    requires Writable(dest) && Writable(src) && OperandLocs(dest) !! OperandLocs(src)
    ensures WellFormed(XCHG(dest, src))
    ensures var t := After(After(s, XCHG(dest, src)), XCHG(dest, src));
            && TaintOfOperand(t, dest) == TaintOfOperand(s, dest) + ControlOf(s)
            && TaintOfOperand(t, src) == TaintOfOperand(s, src) + ControlOf(s)
  {
    hide TaintOfOperand, ControlOf, After, WellFormed, OperandLocs;
    XchgSwaps(s, dest, src);
    XchgSwaps(After(s, XCHG(dest, src)), dest, src);
  }

  /** The event leaves a range of memory alone. */
  ghost predicate Spares(e: Event, start: nat, size: nat) {
    (e.SetMem? || e.ClearMem? || e.NewTaint?) ==> MemLocs(e.start, e.size) !! MemLocs(start, size)
  }

  lemma {:induction false} SparedKept(s: State, es: seq<Event>, n: nat, start: nat, size: nat, l: Loc)
    requires n <= |es| && l in MemLocs(start, size) && forall i | 0 <= i < n :: Spares(es[i], start, size)
    ensures TaintOf(Run(s, es, n), l) == TaintOf(s, l)
  {
    hide MemLocs, UnionOf, Written;
    if n > 0 {
      SparedKept(s, es, n - 1, start, size, l);
      SparedStep(Run(s, es, n - 1), es[n - 1], start, size, l);
    }
  }

  lemma SparedStep(s: State, e: Event, start: nat, size: nat, l: Loc)
    requires l in MemLocs(start, size) && Spares(e, start, size)
    ensures TaintOf(Apply(s, e), l) == TaintOf(s, l)
  {
    hide UnionOf, Written, ControlOf;
    if e.Pop? {
      PopAt(s, e.branches, l);
    }
  }

  /** Pushing a register and popping the same bytes into a register, with anything in between that leaves
      these bytes alone, gives it the pushed taint and the control taint pending at the push and at the
      pop; the push changes no memory outside the range and the pop none at all. */
  lemma PushPop(s: State, r: Reg, es: seq<Event>, q: Reg, start: nat, size: nat)
    requires size > 0 && q != ESP && q != EBP
    requires forall i | 0 <= i < |es| :: Spares(es[i], start, size)
    ensures WellFormed(PUSH(Register(r), start, size)) && WellFormed(POP(Register(q), start, size))
    ensures var pushed := After(s, PUSH(Register(r), start, size));
            var before := Run(pushed, es, |es|);
            var popped := After(before, POP(Register(q), start, size));
            && TaintOf(popped, R(q)) == TaintOf(s, R(r)) + ControlOf(s) + ControlOf(before)
            && (forall a: nat | !(start <= a < start + size) :: TaintOf(pushed, M(a)) == TaintOf(s, M(a)))
            && (forall a: nat :: TaintOf(popped, M(a)) == TaintOf(before, M(a)))
  {
    hide TaintOfOperand, ControlOf, After, WellFormed, UnionOf, Run, Spares;
    var cell := Memory(start, size);
    MovTaint(s, cell, Register(r), R(q));
    var pushed := After(s, PUSH(Register(r), start, size));
    forall a: nat ensures TaintOf(pushed, M(a)) ==
                     if start <= a < start + size then TaintOf(s, R(r)) + ControlOf(s) else TaintOf(s, M(a)) {
      MovTaint(s, cell, Register(r), M(a));
      RegisterTaint(s, r);
    }
    var before := Run(pushed, es, |es|);
    forall l | l in MemLocs(start, size) ensures TaintOf(before, l) == TaintOf(s, R(r)) + ControlOf(s) {
      SparedKept(pushed, es, |es|, start, size, l);
    }
    UniformTaint(before, cell, TaintOf(s, R(r)) + ControlOf(s));
    MovTaint(before, Register(q), cell, R(q));
    var popped := After(before, POP(Register(q), start, size));
    forall a: nat ensures TaintOf(popped, M(a)) == TaintOf(before, M(a)) {
      MovTaint(before, Register(q), cell, M(a));
    }
  }
}
