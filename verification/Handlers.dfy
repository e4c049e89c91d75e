/** Instrumentation and execution: the handlers insert calls before an instruction, and the engine runs
    them in order. */
module Handlers {
  import opened Taint
  import opened Plans
  import opened Instructions
  import opened TaintMaps
  import opened Engines
  import opened TagIndex

  // ---------------------------------------------------------------- executing inserted calls

  /** What the engine demands of a call: marks in range, and written memory that does not wrap around. */
  ghost predicate Executable(e: Event, marks: nat) {
    (e.SetMem? ==> Range(e.start, e.size)) && (e.NewTaint? ==> e.mark < marks)
  }

  method Dispatch(e: Engine, call: Event)
    requires e.Valid() && Executable(call, e.maps.marks)
    modifies e.Repr()
    ensures e.Valid() && fresh(e.Repr() - old(e.Repr())) && e.history == old(e.history) + [call]
  {
    hide Engine.Valid, Engine.Abs, Apply;
    match call
    case LoadReg(reg, into) => e.TaintForRegister(reg, into);
    case LoadMem(start, size, into) => e.TaintForMemory(start, size, into);
    case ClearScratch(into) => e.ClearTaintSet(into);
    case SetReg(reg, from) => e.SetTaintForRegister(reg, from);
    case SetMem(start, size, from) => e.SetTaintForMemory(start, size, from);
    case ClearReg(reg) => e.ClearTaintForRegister(reg);
    case ClearMem(start, size) => e.ClearTaintForMemory(start, size);
    case NewTaint(start, size, mark) => e.SetNewTaintForMemory(start, size, mark);
    case Push(branch) => e.PushControl(branch);
    case Pop(branches) => e.PopControl(branches);
  }

  /** Runs the calls inserted before an instruction, in the order of their insertion. */
  method Execute(e: Engine, calls: seq<Event>)
    requires e.Valid() && forall i | 0 <= i < |calls| :: Executable(calls[i], e.maps.marks)
    modifies e.Repr()
    ensures e.Valid() && fresh(e.Repr() - old(e.Repr()))
    ensures e.history == old(e.history) + calls
    ensures e.Abs() == Run(old(e.Abs()), calls, |calls|)
  {
    hide Engine.Valid, Engine.Abs, Run, Initial, Executable;
    ghost var h := e.history;
    HistoryState(e);
    for i := 0 to |calls|
      invariant e.Valid() && fresh(e.Repr() - old(e.Repr()))
      invariant e.history == h + calls[..i]
    {
      assert calls[..i + 1] == calls[..i] + [calls[i]];
      assert Executable(calls[i], e.maps.marks);
      Dispatch(e, calls[i]);
    }
    assert calls[..|calls|] == calls;
    StateAfter(e, h, calls);
  }

  // ---------------------------------------------------------------- inserting calls

  /** A call that reads or writes memory is inserted only if its address can be computed. */
  predicate Available(e: Event, read: bool, write: bool) {
    (e.LoadMem? ==> read) && (e.SetMem? ==> write)
  }

  /** The inserted calls are those of a plan up to the first that is not available. */
  ghost predicate Inserted(calls: seq<Event>, p: Plan, read: bool, write: bool) {
    && WellFormed(p) && calls <= Calls(p)
    && (forall i | 0 <= i < |calls| :: Available(calls[i], read, write))
    && (|calls| < |Calls(p)| ==> !Available(Calls(p)[|calls|], read, write))
  }

  /** dest, flags <- dest, src; also AND, OR and SUB. */
  method InstrumentADD(dest: Operand, src: Operand, read: bool, write: bool) returns (calls: seq<Event>)
    requires !dest.Immediate?
    ensures Inserted(calls, ADD(dest, src), read, write)
  {
    assert WellFormed(ADD(dest, src)) by {
      AddTaint(map[], dest, src, R(ESP));
    }
    ghost var es := Calls(ADD(dest, src));
    assert es[0] == LoadEvent(Load(dest, DEST));
    assert es[1] == LoadEvent(Load(src, SRC));
    assert es[2] == StoreEvent(Assign(dest, [DEST, SRC]));
    assert es[3] == StoreEvent(Assign(Register(FLAGS), [DEST, SRC]));
    calls := [];
    if dest.Memory? && !read {
      return;
    }
    calls := calls + [LoadEvent(Load(dest, DEST))];
    if src.Memory? && !read {
      return;
    }
    calls := calls + [LoadEvent(Load(src, SRC))];
    if dest.Memory? && !write {
      return;
    }
    calls := calls + [StoreEvent(Assign(dest, [DEST, SRC]))];
    calls := calls + [SetReg(FLAGS, [DEST, SRC])];
  }

  lemma AdcCalls(dest: Operand, src: Operand)
    requires !dest.Immediate?
    ensures WellFormed(ADC(dest, src))
    ensures var es, from := Calls(ADC(dest, src)), [DEST, SRC, EFLAGS_SET];
            && |es| == 5
            && es[0] == LoadEvent(Load(dest, DEST)) && es[1] == LoadEvent(Load(src, SRC))
            && es[2] == LoadEvent(Load(Register(FLAGS), EFLAGS_SET))
            && es[3] == StoreEvent(Assign(dest, from)) && es[4] == StoreEvent(Assign(Register(FLAGS), from))
  {
    AdcTaint(map[], dest, src, R(ESP));
  }

  /** dest, flags <- dest, src, flags; also SBB. */
  method InstrumentADC(dest: Operand, src: Operand, read: bool, write: bool) returns (calls: seq<Event>)
    requires !dest.Immediate?
    ensures Inserted(calls, ADC(dest, src), read, write)
  {
    hide Calls, WellFormed, ADC;
    AdcCalls(dest, src);
    calls := [];
    if dest.Memory? && !read {
      return;
    }
    calls := calls + [LoadEvent(Load(dest, DEST))];
    if src.Memory? && !read {
      return;
    }
    calls := calls + [LoadEvent(Load(src, SRC))];
    calls := calls + [LoadEvent(Load(Register(FLAGS), EFLAGS_SET))];
    if dest.Memory? && !write {
      return;
    }
    calls := calls + [StoreEvent(Assign(dest, [DEST, SRC, EFLAGS_SET]))];
    calls := calls + [SetReg(FLAGS, [DEST, SRC, EFLAGS_SET])];
  }

  lemma XorCalls(dest: Operand, src: Operand)
    requires !dest.Immediate?
    ensures WellFormed(XOR(dest, src))
    ensures var es := Calls(XOR(dest, src));
            && |es| == 4
            && es[0] == LoadEvent(Load(dest, DEST)) && es[1] == LoadEvent(Load(src, SRC))
            && es[2] == (if dest.Register? && dest == src then StoreEvent(Clear(dest.reg))
                         else StoreEvent(Assign(dest, [DEST, SRC])))
            && es[3] == StoreEvent(Assign(Register(FLAGS), [DEST, SRC]))
  {
    if dest.Register? && dest == src {
      XorSelfTaint(map[], dest.reg, R(ESP));
    } else {
      AddTaint(map[], dest, src, R(ESP));
    }
  }

  /** dest, flags <- dest, src; a register combined with itself is cleared. */
  method InstrumentXOR(dest: Operand, src: Operand, read: bool, write: bool) returns (calls: seq<Event>)
    requires !dest.Immediate?
    ensures Inserted(calls, XOR(dest, src), read, write)
  {
    hide Calls, WellFormed, XOR;
    XorCalls(dest, src);
    calls := [];
    if dest.Memory? && !read {
      return;
    }
    calls := calls + [LoadEvent(Load(dest, DEST))];
    if src.Memory? && !read {
      return;
    }
    calls := calls + [LoadEvent(Load(src, SRC))];
    if dest.Register? && dest == src {
      calls := calls + [ClearReg(dest.reg)];
    } else {
      if dest.Memory? && !write {
        return;
      }
      calls := calls + [StoreEvent(Assign(dest, [DEST, SRC]))];
    }
    calls := calls + [SetReg(FLAGS, [DEST, SRC])];
  }

  /** dest <- src and src <- dest. */
  method InstrumentXCHG(dest: Operand, src: Operand, read: bool, write: bool) returns (calls: seq<Event>)
    requires !dest.Immediate? && !src.Immediate?
    ensures Inserted(calls, XCHG(dest, src), read, write)
  {
    assert WellFormed(XCHG(dest, src)) by {
      XchgTaint(map[], dest, src, R(ESP));
    }
    ghost var es := Calls(XCHG(dest, src));
    assert es[0] == LoadEvent(Load(dest, DEST));
    assert es[1] == LoadEvent(Load(src, SRC));
    assert es[2] == StoreEvent(Assign(dest, [SRC]));
    assert es[3] == StoreEvent(Assign(src, [DEST]));
    calls := [];
    if dest.Memory? && !read {
      return;
    }
    calls := calls + [LoadEvent(Load(dest, DEST))];
    if src.Memory? && !read {
      return;
    }
    calls := calls + [LoadEvent(Load(src, SRC))];
    if dest.Memory? && !write {
      return;
    }
    calls := calls + [StoreEvent(Assign(dest, [SRC]))];
    if src.Memory? && !write {
      return;
    }
    calls := calls + [StoreEvent(Assign(src, [DEST]))];
  }

  lemma XaddCalls(dest: Operand, src: Reg)
    requires !dest.Immediate?
    ensures WellFormed(XADD(dest, src))
    ensures Calls(XADD(dest, src)) ==
            [LoadEvent(Load(dest, DEST)), LoadEvent(Load(Register(src), SRC)),
             StoreEvent(Assign(dest, [DEST, SRC])), SetReg(src, [DEST]), SetReg(FLAGS, [DEST, SRC])]
  {
    assert WellFormed(XADD(dest, src)) by {
      XaddTaint(map[], dest, src, R(ESP));
    }
    var es := Calls(XADD(dest, src));
    assert es[0] == LoadEvent(Load(dest, DEST));
    assert es[1] == LoadEvent(Load(Register(src), SRC));
    assert es[2] == StoreEvent(Assign(dest, [DEST, SRC]));
    assert es[3] == StoreEvent(Assign(Register(src), [DEST]));
    assert es[4] == StoreEvent(Assign(Register(FLAGS), [DEST, SRC]));
  }

  /** dest <- dest, src; src <- dest; flags <- dest, src. */
  method InstrumentXADD(dest: Operand, src: Reg, read: bool, write: bool) returns (calls: seq<Event>)
    requires !dest.Immediate?
    ensures Inserted(calls, XADD(dest, src), read, write)
  {
    hide XADD, Calls, WellFormed;
    XaddCalls(dest, src);
    calls := [];
    if dest.Memory? && !read {
      return;
    }
    calls := calls + [LoadEvent(Load(dest, DEST))];
    calls := calls + [LoadEvent(Load(Register(src), SRC))];
    if dest.Memory? && !write {
      return;
    }
    calls := calls + [StoreEvent(Assign(dest, [DEST, SRC]))];
    calls := calls + [SetReg(src, [DEST])];
    calls := calls + [SetReg(FLAGS, [DEST, SRC])];
  }

  lemma MulCalls(src: Operand, wide: bool)
    requires !src.Immediate?
    ensures WellFormed(MUL(src, wide))
    ensures var es, from := Calls(MUL(src, wide)), [AxSet(wide), SRC];
            && |es| == 5
            && es[0] == LoadEvent(Load(src, SRC)) && es[1] == LoadEvent(Load(Register(AxOf(wide)), AxSet(wide)))
            && es[2] == StoreEvent(Assign(Register(AxOf(wide)), from))
            && es[3] == StoreEvent(Assign(Register(DxOf(wide)), from))
            && es[4] == StoreEvent(Assign(Register(FlagsOf(wide)), from))
  {
    MulTaint(map[], src, wide, R(ESP));
  }

  /** ax, dx, flags <- ax, src. */
  method InstrumentMUL(src: Operand, wide: bool, read: bool, write: bool) returns (calls: seq<Event>)
    requires !src.Immediate?
    ensures Inserted(calls, MUL(src, wide), read, write)
  {
    hide Calls, WellFormed, MUL;
    MulCalls(src, wide);
    var ax, dx, flags, set_ := AxOf(wide), DxOf(wide), FlagsOf(wide), AxSet(wide);
    calls := [];
    if src.Memory? && !read {
      return;
    }
    calls := calls + [LoadEvent(Load(src, SRC))];
    calls := calls + [LoadEvent(Load(Register(ax), set_))];
    calls := calls + [SetReg(ax, [set_, SRC])];
    calls := calls + [SetReg(dx, [set_, SRC])];
    calls := calls + [SetReg(flags, [set_, SRC])];
  }

  lemma DivCalls(src: Operand, wide: bool)
    requires !src.Immediate?
    ensures WellFormed(DIV(src, wide))
    ensures var ax, dx, from := AxOf(wide), DxOf(wide), [AxSet(wide), DxSet(wide), SRC];
            Calls(DIV(src, wide)) ==
            [LoadEvent(Load(src, SRC)), LoadReg(ax, AxSet(wide)), LoadReg(dx, DxSet(wide)),
             SetReg(ax, from), SetReg(dx, from), ClearReg(FlagsOf(wide))]
  {
    assert WellFormed(DIV(src, wide)) by {
      DivTaint(map[], src, wide, R(ESP));
    }
    var ax, dx, from := AxOf(wide), DxOf(wide), [AxSet(wide), DxSet(wide), SRC];
    var es := Calls(DIV(src, wide));
    assert es[0] == LoadEvent(Load(src, SRC));
    assert es[1] == LoadEvent(Load(Register(ax), AxSet(wide)));
    assert es[2] == LoadEvent(Load(Register(dx), DxSet(wide)));
    assert es[3] == StoreEvent(Assign(Register(ax), from));
    assert es[4] == StoreEvent(Assign(Register(dx), from));
    assert es[5] == StoreEvent(Clear(FlagsOf(wide)));
  }

  /** ax, dx <- ax, dx, src; flags <- clear. */
  method InstrumentDIV(src: Operand, wide: bool, read: bool, write: bool) returns (calls: seq<Event>)
    requires !src.Immediate?
    ensures Inserted(calls, DIV(src, wide), read, write)
  {
    hide DIV, Calls, WellFormed;
    DivCalls(src, wide);
    var ax, dx, flags := AxOf(wide), DxOf(wide), FlagsOf(wide);
    var from := [AxSet(wide), DxSet(wide), SRC];
    calls := [];
    if src.Memory? && !read {
      return;
    }
    calls := calls + [LoadEvent(Load(src, SRC))];
    calls := calls + [LoadEvent(Load(Register(ax), AxSet(wide)))];
    calls := calls + [LoadEvent(Load(Register(dx), DxSet(wide)))];
    calls := calls + [SetReg(ax, from)];
    calls := calls + [SetReg(dx, from)];
    calls := calls + [ClearReg(flags)];
  }

  /** The calls of MUL and DIV for each width, with the registers and scratch sets spelled out; l loads the operand. */
  lemma WidthCalls(src: Operand)
    requires !src.Immediate?
    ensures WellFormed(MUL(src, false)) && WellFormed(MUL(src, true))
    ensures WellFormed(DIV(src, false)) && WellFormed(DIV(src, true))
    ensures var l := LoadEvent(Load(src, SRC));
            && Calls(MUL(src, false)) ==
               [l, LoadReg(EAX, EAX_SET), SetReg(EAX, [EAX_SET, SRC]), SetReg(EDX, [EAX_SET, SRC]),
                SetReg(EFLAGS, [EAX_SET, SRC])]
            && Calls(MUL(src, true)) ==
               [l, LoadReg(RAX, RAX_SET), SetReg(RAX, [RAX_SET, SRC]), SetReg(RDX, [RAX_SET, SRC]),
                SetReg(RFLAGS, [RAX_SET, SRC])]
            && Calls(DIV(src, false)) ==
               [l, LoadReg(EAX, EAX_SET), LoadReg(EDX, EDX_SET), SetReg(EAX, [EAX_SET, EDX_SET, SRC]),
                SetReg(EDX, [EAX_SET, EDX_SET, SRC]), ClearReg(EFLAGS)]
            && Calls(DIV(src, true)) ==
               [l, LoadReg(RAX, RAX_SET), LoadReg(RDX, RDX_SET), SetReg(RAX, [RAX_SET, RDX_SET, SRC]),
                SetReg(RDX, [RAX_SET, RDX_SET, SRC]), ClearReg(RFLAGS)]
  {
    hide Calls, MUL, DIV, WellFormed;
    MulCalls(src, false);
    MulCalls(src, true);
    DivCalls(src, false);
    DivCalls(src, true);
  }

  /** top of stack <- src. */
  method InstrumentPUSH(src: Operand, start: nat, size: nat, read: bool, write: bool) returns (calls: seq<Event>)
    ensures Inserted(calls, PUSH(src, start, size), read, write)
  {
    assert WellFormed(PUSH(src, start, size)) by {
      MovTaint(map[], Memory(start, size), src, R(ESP));
    }
    ghost var es := Calls(PUSH(src, start, size));
    assert es[0] == LoadEvent(Load(src, SRC));
    assert es[1] == StoreEvent(Assign(Memory(start, size), [SRC]));
    calls := [];
    if src.Memory? && !read {
      return;
    }
    calls := calls + [LoadEvent(Load(src, SRC))];
    if !write {
      return;
    }
    calls := calls + [SetMem(start, size, [SRC])];
  }

  /** dest <- top of stack. */
  method InstrumentPOP(dest: Operand, start: nat, size: nat, read: bool, write: bool) returns (calls: seq<Event>)
    requires !dest.Immediate?
    ensures Inserted(calls, POP(dest, start, size), read, write)
  {
    assert WellFormed(POP(dest, start, size)) by {
      MovTaint(map[], dest, Memory(start, size), R(ESP));
    }
    ghost var es := Calls(POP(dest, start, size));
    assert es[0] == LoadEvent(Load(Memory(start, size), SRC));
    assert es[1] == StoreEvent(Assign(dest, [SRC]));
    calls := [];
    if !read {
      return;
    }
    calls := calls + [LoadEvent(Load(Memory(start, size), SRC))];
    if dest.Memory? && !write {
      return;
    }
    calls := calls + [StoreEvent(Assign(dest, [SRC]))];
  }

  /** dest <- src; also the conversions with extension. */
  method InstrumentMOV(dest: Operand, src: Operand, read: bool, write: bool) returns (calls: seq<Event>)
    requires !dest.Immediate?
    ensures Inserted(calls, MOV(dest, src), read, write)
  {
    assert WellFormed(MOV(dest, src)) by {
      MovTaint(map[], dest, src, R(ESP));
    }
    ghost var es := Calls(MOV(dest, src));
    assert es[0] == LoadEvent(Load(src, SRC));
    assert es[1] == StoreEvent(Assign(dest, [SRC]));
    calls := [];
    if src.Memory? && !read {
      return;
    }
    calls := calls + [LoadEvent(Load(src, SRC))];
    if dest.Memory? && !write {
      return;
    }
    calls := calls + [StoreEvent(Assign(dest, [SRC]))];
  }

  /** dest <- base, index. */
  method InstrumentLEA(dest: Reg, base: Reg, index: Reg, read: bool, write: bool) returns (calls: seq<Event>)
    ensures Inserted(calls, LEA(dest, base, index), read, write)
  {
    assert WellFormed(LEA(dest, base, index)) by {
      LeaTaint(map[], dest, base, index, R(ESP));
    }
    ghost var es := Calls(LEA(dest, base, index));
    assert es[0] == LoadEvent(Load(Register(base), BASE));
    assert es[1] == LoadEvent(Load(Register(index), IDX));
    assert es[2] == StoreEvent(Assign(Register(dest), [BASE, IDX]));
    calls := [];
    calls := calls + [LoadEvent(Load(Register(base), BASE))];
    calls := calls + [LoadEvent(Load(Register(index), IDX))];
    calls := calls + [SetReg(dest, [BASE, IDX])];
  }
}
