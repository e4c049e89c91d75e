/** What an instrumented instruction does to the engine: the calls that its handler inserted, run in order,
    assign simultaneously as far as the handler got. */
module Effects {
  import opened Taint
  import opened Plans
  import opened Instructions
  import opened NamedEffects
  import opened TagIndex
  import opened Engines
  import opened Handlers

  // ---------------------------------------------------------------- how far a handler gets

  /** The stores in front of the first one whose address cannot be computed. */
  ghost function LeadingStores(stores: seq<Store>, write: bool): (n: nat)
    ensures n <= |stores|
  {
    if stores == [] || (stores[0].Assign? && stores[0].target.Memory? && !write) then 0
    else 1 + LeadingStores(stores[1..], write)
  }

  /** No store is reached if an operand in memory cannot be read. */
  ghost function StoresReached(p: Plan, read: bool, write: bool): (n: nat)
    ensures n <= |p.stores|
  {
    if !read && exists i :: 0 <= i < |p.loads| && p.loads[i].op.Memory? then 0
    else LeadingStores(p.stores, write)
  }

  lemma {:induction false} LeadingStoresAre(stores: seq<Store>, write: bool, n: nat)
    requires n <= |stores|
    requires forall i | 0 <= i < n && stores[i].Assign? :: stores[i].target.Memory? ==> write
    requires n < |stores| ==> stores[n].Assign? && stores[n].target.Memory? && !write
    ensures LeadingStores(stores, write) == n
    decreases n
  {
    if n > 0 {
      LeadingStoresAre(stores[1..], write, n - 1);
    }
  }

  lemma LoadAvailable(p: Plan, i: nat, read: bool, write: bool)
    requires WellFormed(p) && i < |p.loads|
    ensures Available(Calls(p)[i], read, write) <==> (p.loads[i].op.Memory? ==> read)
  {
  }

  lemma StoreAvailable(p: Plan, i: nat, read: bool, write: bool)
    requires WellFormed(p) && i < |p.stores|
    ensures Available(Calls(p)[|p.loads| + i], read, write) <==>
            (p.stores[i].Assign? && p.stores[i].target.Memory? ==> write)
  {
    assert Calls(p)[|p.loads| + i] == StoreEvent(p.stores[i]);
  }

  /** The stores among the inserted calls are those that are reached. */
  lemma InsertedReaches(calls: seq<Event>, p: Plan, read: bool, write: bool)
    requires Inserted(calls, p, read, write)
    ensures (if |calls| <= |p.loads| then 0 else |calls| - |p.loads|) == StoresReached(p, read, write)
  {
    hide Calls, Available;
    forall i: nat | i < |p.loads| ensures Available(Calls(p)[i], read, write) <==> (p.loads[i].op.Memory? ==> read) {
      LoadAvailable(p, i, read, write);
    }
    if |calls| < |p.loads| {
      assert p.loads[|calls|].op.Memory? && !read;
    } else {
      var n := |calls| - |p.loads|;
      forall i: nat | i < |p.loads| ensures p.loads[i].op.Memory? ==> read {
        assert calls[i] == Calls(p)[i];
      }
      forall i | 0 <= i <= n && i < |p.stores|
        ensures i < n ==> Available(Calls(p)[|p.loads| + i], read, write)
        ensures Available(Calls(p)[|p.loads| + i], read, write) <==>
                (p.stores[i].Assign? && p.stores[i].target.Memory? ==> write)
      {
        StoreAvailable(p, i, read, write);
        if i < n {
          assert calls[|p.loads| + i] == Calls(p)[|p.loads| + i];
        }
      }
      LeadingStoresAre(p.stores, write, n);
    }
  }

  /** From any state the inserted calls leave every register, byte and control entry with what the stores that
      are reached assign to it from that state. */
  lemma InsertedAssign(s: State, calls: seq<Event>, p: Plan, read: bool, write: bool, l: Loc)
    requires Inserted(calls, p, read, write) && !l.S?
    ensures TaintOf(Run(s, calls, |calls|), l) == Assigned(s, p, StoresReached(p, read, write), l)
  {
    hide Calls, Available, Run, Assigned;
    InsertedReaches(calls, p, read, write);
    ActsSimultaneously(s, p, |calls|, l);
    assert calls + Calls(p)[|calls|..] == Calls(p);
    RunOfPrefix(s, calls, Calls(p)[|calls|..], |calls|);
  }

  // ---------------------------------------------------------------- on the engine

  /** Memory that the plan writes does not wrap around. */
  ghost predicate Fits(p: Plan) {
    forall i | 0 <= i < |p.stores| && p.stores[i].Assign? && p.stores[i].target.Memory? ::
      Range(p.stores[i].target.start, p.stores[i].target.size)
  }

  lemma InsertedExecutable(calls: seq<Event>, p: Plan, read: bool, write: bool, marks: nat)
    requires Inserted(calls, p, read, write) && Fits(p)
    ensures forall i | 0 <= i < |calls| :: Executable(calls[i], marks)
  {
    hide Range, Available;
    forall i | 0 <= i < |calls| ensures Executable(calls[i], marks) {
      assert calls[i] == Calls(p)[i];
      if i < |p.loads| {
        assert calls[i] == LoadEvent(p.loads[i]);
      } else {
        assert calls[i] == StoreEvent(p.stores[i - |p.loads|]);
      }
    }
  }

  /** t holds what the stores of p that are reached assign from s. */
  ghost predicate TookEffect(s: State, t: State, p: Plan, read: bool, write: bool) {
    forall l: Loc | !l.S? :: TaintOf(t, l) == Assigned(s, p, StoresReached(p, read, write), l)
  }

  /** Runs the calls that a handler inserted. */
  method ExecuteInserted(e: Engine, calls: seq<Event>, ghost p: Plan, ghost read: bool, ghost write: bool)
    requires e.Valid() && Inserted(calls, p, read, write) && Fits(p)
    modifies e.Repr()
    ensures e.Valid() && fresh(e.Repr() - old(e.Repr()))
    ensures TookEffect(old(e.Abs()), e.Abs(), p, read, write)
  {
    hide Engine.Valid, Engine.Abs, Inserted, Executable, Run, Assigned, StoresReached, Fits;
    InsertedExecutable(calls, p, read, write, e.maps.marks);
    ghost var s := e.Abs();
    Execute(e, calls);
    forall l: Loc | !l.S? ensures TaintOf(e.Abs(), l) == Assigned(s, p, StoresReached(p, read, write), l) {
      InsertedAssign(s, calls, p, read, write, l);
    }
  }

  /** All operands in memory can be addressed. */
  ghost predicate Addressable(read: bool, write: bool, dest: Operand, src: Operand) {
    (dest.Memory? ==> read && write) && (src.Memory? ==> read)
  }

  /** The taint that ADD leaves at a location; nothing happens if an operand cannot be addressed. */
  ghost function AfterAdd(s: State, dest: Operand, src: Operand, read: bool, write: bool, l: Loc): Marks {
    if Addressable(read, write, dest, src) && (l in OperandLocs(dest) || l == R(FLAGS))
    then TaintOfOperand(s, dest) + TaintOfOperand(s, src) + ControlOf(s)
    else TaintOf(s, l)
  }

  lemma AddReached(s: State, dest: Operand, src: Operand, read: bool, write: bool, l: Loc)
    requires !dest.Immediate? && !l.S?
    ensures WellFormed(ADD(dest, src))
    ensures Assigned(s, ADD(dest, src), StoresReached(ADD(dest, src), read, write), l) ==
            AfterAdd(s, dest, src, read, write, l)
  {
    hide TaintOfOperand, ControlOf, OperandLocs, Assigned, After, TaintOf, StoresReached;
    var p := ADD(dest, src);
    AddTaint(s, dest, src, l);
    AfterAll(s, p, l);
    AssignedNone(s, p, l);
    TwoLoads(p, dest, src, read, write);
    TwoStores(p.stores, write);
  }

  /** How far a plan gets that loads two operands. */
  lemma TwoLoads(p: Plan, dest: Operand, src: Operand, read: bool, write: bool)
    requires |p.loads| == 2 && p.loads[0].op == dest && p.loads[1].op == src
    ensures StoresReached(p, read, write) ==
            if (dest.Memory? || src.Memory?) && !read then 0 else LeadingStores(p.stores, write)
  {
    if dest.Memory? {
      assert p.loads[0].op.Memory?;
    } else if src.Memory? {
      assert p.loads[1].op.Memory?;
    }
  }

  /** How far a plan gets that stores twice. */
  lemma TwoStores(stores: seq<Store>, write: bool)
    requires |stores| == 2
    ensures LeadingStores(stores, write) ==
            if stores[0].Assign? && stores[0].target.Memory? && !write then 0
            else if stores[1].Assign? && stores[1].target.Memory? && !write then 1
            else 2
  {
    assert stores[1..][0] == stores[1];
    assert stores[1..][1..] == [];
  }

  lemma AssignedNone(s: State, p: Plan, l: Loc)
    ensures Assigned(s, p, 0, l) == TaintOf(s, l)
  {
  }

  /** ADD, instrumented and executed. */
  method RunADD(e: Engine, dest: Operand, src: Operand, read: bool, write: bool)
    requires e.Valid() && !dest.Immediate? && (dest.Memory? ==> Range(dest.start, dest.size))
    modifies e.Repr()
    ensures e.Valid() && fresh(e.Repr() - old(e.Repr()))
    ensures forall l: Loc | !l.S? :: TaintOf(e.Abs(), l) == AfterAdd(old(e.Abs()), dest, src, read, write, l)
  {
    hide Engine.Valid, Engine.Abs, Inserted, Assigned, StoresReached, AfterAdd, TaintOf, Range;
    ghost var s := e.Abs();
    var calls := InstrumentADD(dest, src, read, write);
    ExecuteInserted(e, calls, ADD(dest, src), read, write);
    forall l: Loc | !l.S? ensures TaintOf(e.Abs(), l) == AfterAdd(s, dest, src, read, write, l) {
      AddReached(s, dest, src, read, write, l);
    }
  }

  /** The taint that XOR of a register with itself leaves. */
  ghost function AfterXorSelf(s: State, r: Reg, l: Loc): Marks {
    if l == R(FLAGS) then TaintOf(s, R(r)) + ControlOf(s)
    else if l == R(r) then (if R(r) in s then ControlOf(s) else {})
    else TaintOf(s, l)
  }

  lemma XorSelfReached(s: State, r: Reg, read: bool, write: bool, l: Loc)
    requires !l.S?
    ensures WellFormed(XOR(Register(r), Register(r)))
    ensures var p := XOR(Register(r), Register(r));
            Assigned(s, p, StoresReached(p, read, write), l) == AfterXorSelf(s, r, l)
  {
    hide TaintOfOperand, ControlOf, OperandLocs, Assigned, After, TaintOf, StoresReached;
    var p := XOR(Register(r), Register(r));
    XorSelfTaint(s, r, l);
    AfterAll(s, p, l);
    TwoLoads(p, Register(r), Register(r), read, write);
    TwoStores(p.stores, write);
  }

  /** XOR of a register with itself, instrumented and executed: nothing can stop it. */
  method RunXORSelf(e: Engine, r: Reg, read: bool, write: bool)
    requires e.Valid()
    modifies e.Repr()
    ensures e.Valid() && fresh(e.Repr() - old(e.Repr()))
    ensures forall l: Loc | !l.S? :: TaintOf(e.Abs(), l) == AfterXorSelf(old(e.Abs()), r, l)
  {
    hide Engine.Valid, Engine.Abs, Inserted, Assigned, StoresReached, AfterXorSelf, TaintOf, Range;
    ghost var s := e.Abs();
    var calls := InstrumentXOR(Register(r), Register(r), read, write);
    ExecuteInserted(e, calls, XOR(Register(r), Register(r)), read, write);
    forall l: Loc | !l.S? ensures TaintOf(e.Abs(), l) == AfterXorSelf(s, r, l) {
      XorSelfReached(s, r, read, write, l);
    }
  }

  /** The taint that XCHG leaves.  If the second operand's memory cannot be written, the handler has already
      inserted the write of the first: half an exchange. */
  ghost function AfterXchg(s: State, dest: Operand, src: Operand, read: bool, write: bool, l: Loc): Marks {
    if !Addressable(read, write, dest, src) then TaintOf(s, l)
    else if l in OperandLocs(src) && (src.Memory? ==> write) then TaintOfOperand(s, dest) + ControlOf(s)
    else if l in OperandLocs(dest) then TaintOfOperand(s, src) + ControlOf(s)
    else TaintOf(s, l)
  }

  lemma XchgReached(s: State, dest: Operand, src: Operand, read: bool, write: bool, l: Loc)
    requires !dest.Immediate? && !src.Immediate? && !l.S?
    ensures WellFormed(XCHG(dest, src))
    ensures Assigned(s, XCHG(dest, src), StoresReached(XCHG(dest, src), read, write), l) ==
            AfterXchg(s, dest, src, read, write, l)
  {
    hide TaintOfOperand, ControlOf, OperandLocs, Assigned, After, TaintOf, SourceMarks, StoresReached;
    var p := XCHG(dest, src);
    XchgTaint(s, dest, src, l);
    AfterAll(s, p, l);
    AssignedNone(s, p, l);
    AssignedStep(s, p, 0, l);
    OneSource(s, p, 1, SRC);
    TwoLoads(p, dest, src, read, write);
    TwoStores(p.stores, write);
  }

  /** XCHG, instrumented and executed. */
  method RunXCHG(e: Engine, dest: Operand, src: Operand, read: bool, write: bool)
    requires e.Valid() && !dest.Immediate? && !src.Immediate?
    requires (dest.Memory? ==> Range(dest.start, dest.size)) && (src.Memory? ==> Range(src.start, src.size))
    modifies e.Repr()
    ensures e.Valid() && fresh(e.Repr() - old(e.Repr()))
    ensures forall l: Loc | !l.S? :: TaintOf(e.Abs(), l) == AfterXchg(old(e.Abs()), dest, src, read, write, l)
  {
    hide Engine.Valid, Engine.Abs, Inserted, Assigned, StoresReached, AfterXchg, TaintOf, Range;
    ghost var s := e.Abs();
    var calls := InstrumentXCHG(dest, src, read, write);
    ExecuteInserted(e, calls, XCHG(dest, src), read, write);
    forall l: Loc | !l.S? ensures TaintOf(e.Abs(), l) == AfterXchg(s, dest, src, read, write, l) {
      XchgReached(s, dest, src, read, write, l);
    }
  }

  // ---------------------------------------------------------------- the stack, multiplication and division

  /** How far a plan gets whose stores name registers only. */
  lemma RegisterStores(p: Plan, read: bool, write: bool)
    requires forall i | 0 <= i < |p.stores| && p.stores[i].Assign? :: p.stores[i].target.Register?
    ensures StoresReached(p, read, write) ==
            if !read && exists i :: 0 <= i < |p.loads| && p.loads[i].op.Memory? then 0 else |p.stores|
  {
    LeadingStoresAre(p.stores, write, |p.stores|);
  }

  /** How far a move gets. */
  lemma MoveReaches(dest: Operand, src: Operand, read: bool, write: bool)
    ensures StoresReached(MOV(dest, src), read, write) ==
            if (src.Memory? ==> read) && (dest.Memory? ==> write) then 1 else 0
  {
    var p := MOV(dest, src);
    assert p.loads[0].op == src && p.stores[0] == Assign(dest, [SRC]) && p.stores[1..] == [];
  }

  /** The taint that PUSH leaves. */
  ghost function AfterPush(s: State, src: Operand, start: nat, size: nat, read: bool, write: bool, l: Loc): Marks {
    if (src.Memory? ==> read) && write && l.M? && start <= l.addr < start + size
    then TaintOfOperand(s, src) + ControlOf(s) else TaintOf(s, l)
  }

  lemma PushReached(s: State, src: Operand, start: nat, size: nat, read: bool, write: bool, l: Loc)
    requires !l.S?
    ensures WellFormed(PUSH(src, start, size))
    ensures var p := PUSH(src, start, size);
            Assigned(s, p, StoresReached(p, read, write), l) == AfterPush(s, src, start, size, read, write, l)
  {
    hide TaintOfOperand, ControlOf, Assigned, After, TaintOf, StoresReached, WellFormed, MOV;
    var p := PUSH(src, start, size);
    PushTaint(s, src, start, size, l);
    OneStore(Memory(start, size), src);
    AfterAll(s, p, l);
    AssignedNone(s, p, l);
    MoveReaches(Memory(start, size), src, read, write);
  }

  lemma OneStore(dest: Operand, src: Operand)
    ensures |MOV(dest, src).stores| == 1
  {
  }

  /** PUSH, instrumented and executed: the bytes on top of the stack get the operand's taint, or nothing happens. */
  method RunPUSH(e: Engine, src: Operand, start: nat, size: nat, read: bool, write: bool)
    requires e.Valid() && Range(start, size)
    modifies e.Repr()
    ensures e.Valid() && fresh(e.Repr() - old(e.Repr()))
    ensures forall l: Loc | !l.S? ::
              TaintOf(e.Abs(), l) == AfterPush(old(e.Abs()), src, start, size, read, write, l)
  {
    hide Engine.Valid, Engine.Abs, Inserted, Assigned, StoresReached, AfterPush, TaintOf, Range;
    ghost var s := e.Abs();
    var calls := InstrumentPUSH(src, start, size, read, write);
    ExecuteInserted(e, calls, PUSH(src, start, size), read, write);
    forall l: Loc | !l.S? ensures TaintOf(e.Abs(), l) == AfterPush(s, src, start, size, read, write, l) {
      PushReached(s, src, start, size, read, write, l);
    }
  }

  /** The taint that POP leaves. */
  ghost function AfterPop(s: State, dest: Operand, start: nat, size: nat, read: bool, write: bool, l: Loc): Marks {
    if read && (dest.Memory? ==> write) && Reaches(dest, l)
    then TaintOfOperand(s, Memory(start, size)) + ControlOf(s) else TaintOf(s, l)
  }

  lemma PopReached(s: State, dest: Operand, start: nat, size: nat, read: bool, write: bool, l: Loc)
    requires !dest.Immediate? && !l.S?
    ensures WellFormed(POP(dest, start, size))
    ensures var p := POP(dest, start, size);
            Assigned(s, p, StoresReached(p, read, write), l) == AfterPop(s, dest, start, size, read, write, l)
  {
    hide TaintOfOperand, ControlOf, Assigned, After, TaintOf, StoresReached, WellFormed, MOV, Reaches;
    var p := POP(dest, start, size);
    PopTaint(s, dest, start, size, l);
    OneStore(dest, Memory(start, size));
    AfterAll(s, p, l);
    AssignedNone(s, p, l);
    MoveReaches(dest, Memory(start, size), read, write);
  }

  /** POP, instrumented and executed. */
  method RunPOP(e: Engine, dest: Operand, start: nat, size: nat, read: bool, write: bool)
    requires e.Valid() && !dest.Immediate? && (dest.Memory? ==> Range(dest.start, dest.size))
    modifies e.Repr()
    ensures e.Valid() && fresh(e.Repr() - old(e.Repr()))
    ensures forall l: Loc | !l.S? ::
              TaintOf(e.Abs(), l) == AfterPop(old(e.Abs()), dest, start, size, read, write, l)
  {
    hide Engine.Valid, Engine.Abs, Inserted, Assigned, StoresReached, AfterPop, TaintOf, Range;
    ghost var s := e.Abs();
    var calls := InstrumentPOP(dest, start, size, read, write);
    ExecuteInserted(e, calls, POP(dest, start, size), read, write);
    forall l: Loc | !l.S? ensures TaintOf(e.Abs(), l) == AfterPop(s, dest, start, size, read, write, l) {
      PopReached(s, dest, start, size, read, write, l);
    }
  }

  /** The taint that MUL leaves, by width. */
  ghost function AfterMul(s: State, src: Operand, wide: bool, read: bool, l: Loc): Marks {
    if src.Memory? && !read then TaintOf(s, l)
    else if wide && l in {R(RAX), R(RDX), R(RFLAGS)}
    then TaintOf(s, R(RAX)) + TaintOfOperand(s, src) + ControlOf(s)
    else if !wide && l in {R(EAX), R(AX), R(AH), R(AL), R(EDX), R(DX), R(DH), R(DL), R(EFLAGS)}
    then TaintOf(s, R(EAX)) + TaintOfOperand(s, src) + ControlOf(s)
    else TaintOf(s, l)
  }

  lemma MulReached(s: State, src: Operand, wide: bool, read: bool, write: bool, l: Loc)
    requires !l.S?
    ensures WellFormed(MUL(src, wide))
    ensures Assigned(s, MUL(src, wide), StoresReached(MUL(src, wide), read, write), l) ==
            AfterMul(s, src, wide, read, l)
  {
    hide TaintOfOperand, ControlOf, Assigned, After, TaintOf, WellFormed, LeadingStores;
    var p := MUL(src, wide);
    if wide {
      Mul64(s, src, l);
    } else {
      Mul32(s, src, l);
    }
    AfterAll(s, p, l);
    AssignedNone(s, p, l);
    RegisterStores(p, read, write);
    assert p.loads[0].op == src && p.loads[1].op.Register?;
  }

  /** MUL, instrumented and executed. */
  method RunMUL(e: Engine, src: Operand, wide: bool, read: bool, write: bool)
    requires e.Valid() && !src.Immediate?
    modifies e.Repr()
    ensures e.Valid() && fresh(e.Repr() - old(e.Repr()))
    ensures forall l: Loc | !l.S? :: TaintOf(e.Abs(), l) == AfterMul(old(e.Abs()), src, wide, read, l)
  {
    hide Engine.Valid, Engine.Abs, Inserted, Assigned, StoresReached, AfterMul, TaintOf, Range;
    ghost var s := e.Abs();
    var calls := InstrumentMUL(src, wide, read, write);
    ExecuteInserted(e, calls, MUL(src, wide), read, write);
    forall l: Loc | !l.S? ensures TaintOf(e.Abs(), l) == AfterMul(s, src, wide, read, l) {
      MulReached(s, src, wide, read, write, l);
    }
  }

  /** The taint that DIV leaves, by width. */
  ghost function AfterDiv(s: State, src: Operand, wide: bool, read: bool, l: Loc): Marks {
    if src.Memory? && !read then TaintOf(s, l)
    else if l == (if wide then R(RFLAGS) else R(EFLAGS)) then (if l in s then ControlOf(s) else {})
    else if wide && l in {R(RAX), R(RDX)}
    then TaintOf(s, R(RAX)) + TaintOf(s, R(RDX)) + TaintOfOperand(s, src) + ControlOf(s)
    else if !wide && l in {R(EAX), R(AX), R(AH), R(AL), R(EDX), R(DX), R(DH), R(DL)}
    then TaintOf(s, R(EAX)) + TaintOf(s, R(EDX)) + TaintOfOperand(s, src) + ControlOf(s)
    else TaintOf(s, l)
  }

  lemma DivReached(s: State, src: Operand, wide: bool, read: bool, write: bool, l: Loc)
    requires !l.S?
    ensures WellFormed(DIV(src, wide))
    ensures Assigned(s, DIV(src, wide), StoresReached(DIV(src, wide), read, write), l) ==
            AfterDiv(s, src, wide, read, l)
  {
    hide TaintOfOperand, ControlOf, Assigned, After, TaintOf, WellFormed, LeadingStores;
    var p := DIV(src, wide);
    if wide {
      Div64(s, src, l);
    } else {
      Div32(s, src, l);
    }
    AfterAll(s, p, l);
    AssignedNone(s, p, l);
    RegisterStores(p, read, write);
    assert p.loads[0].op == src && p.loads[1].op.Register? && p.loads[2].op.Register?;
  }

  /** DIV, instrumented and executed. */
  method RunDIV(e: Engine, src: Operand, wide: bool, read: bool, write: bool)
    requires e.Valid() && !src.Immediate?
    modifies e.Repr()
    ensures e.Valid() && fresh(e.Repr() - old(e.Repr()))
    ensures forall l: Loc | !l.S? :: TaintOf(e.Abs(), l) == AfterDiv(old(e.Abs()), src, wide, read, l)
  {
    hide Engine.Valid, Engine.Abs, Inserted, Assigned, StoresReached, AfterDiv, TaintOf, Range;
    ghost var s := e.Abs();
    var calls := InstrumentDIV(src, wide, read, write);
    ExecuteInserted(e, calls, DIV(src, wide), read, write);
    forall l: Loc | !l.S? ensures TaintOf(e.Abs(), l) == AfterDiv(s, src, wide, read, l) {
      DivReached(s, src, wide, read, write, l);
    }
  }
}
