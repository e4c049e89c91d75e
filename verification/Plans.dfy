/** Instruction handlers as plans: loads of operand taint into scratch sets, then stores from them. */
module Plans {
  import opened Taint

  datatype Operand = Register(reg: Reg) | Memory(start: nat, size: nat) | Immediate

  datatype Load = Load(op: Operand, into: Scratch)

  datatype Store = Assign(target: Operand, from: seq<Scratch>) | Clear(reg: Reg)

  datatype Plan = Plan(loads: seq<Load>, stores: seq<Store>)

  /** The call that copies an operand's taint into a scratch set; an immediate has none. */
  function LoadEvent(k: Load): Event {
    match k.op
    case Register(r) => LoadReg(r, k.into)
    case Memory(start, size) => LoadMem(start, size, k.into)
    case Immediate => ClearScratch(k.into)
  }

  function StoreEvent(k: Store): Event
    requires k.Assign? ==> !k.target.Immediate?
  {
    match k
    case Assign(Register(r), from) => SetReg(r, from)
    case Assign(Memory(start, size), from) => SetMem(start, size, from)
    case Clear(r) => ClearReg(r)
  }

  /** Every store has a register or memory target and takes its taint from loaded scratch sets, and no
      scratch set is loaded twice. */
  ghost predicate WellFormed(p: Plan) {
    && (forall i, j | 0 <= i < j < |p.loads| :: p.loads[i].into != p.loads[j].into)
    && (forall i | 0 <= i < |p.stores| && p.stores[i].Assign? ::
          !p.stores[i].target.Immediate? && forall x | x in p.stores[i].from :: LoadedInto(p, x))
  }

  ghost predicate LoadedInto(p: Plan, x: Scratch) {
    exists k :: 0 <= k < |p.loads| && p.loads[k].into == x
  }

  /** The sequence of calls that a plan stands for. */
  ghost function Calls(p: Plan): (es: seq<Event>)
    requires WellFormed(p)
    ensures |es| == |p.loads| + |p.stores|
  {
    seq(|p.loads| + |p.stores|, i requires 0 <= i < |p.loads| + |p.stores| =>
      if i < |p.loads| then LoadEvent(p.loads[i]) else StoreEvent(p.stores[i - |p.loads|]))
  }

  // ---------------------------------------------------------------- the meaning of a plan

  /** The union of the taint that an operand holds. */
  ghost function TaintOfOperand(s: State, op: Operand): Marks {
    match op
    case Register(r) => TaintOf(s, R(r))
    case Memory(start, size) => UnionOf(s, MemLocs(start, size))
    case Immediate => {}
  }

  /** The locations that an assignment to an operand writes. */
  ghost function OperandLocs(op: Operand): set<Loc> {
    match op
    case Register(r) => RegLocs(r)
    case Memory(start, size) => MemLocs(start, size)
    case Immediate => {}
  }

  /** The pre-state taint of the operands loaded into some scratch sets. */
  ghost function SourceMarks(s: State, p: Plan, from: seq<Scratch>): Marks {
    set k, m | 0 <= k < |p.loads| && p.loads[k].into in from && m in TaintOfOperand(s, p.loads[k].op) :: m
  }

  /** Whether a location has an entry after the first n stores. */
  ghost predicate Present(s: State, p: Plan, n: nat, l: Loc)
    requires n <= |p.stores|
  {
    l in s || exists i :: 0 <= i < n && p.stores[i].Assign? && l in OperandLocs(p.stores[i].target)
  }

  /** The taint of a location after the first n stores, in terms of the state before the first load:
      that of the last store that writes it, or what it was. */
  ghost function Assigned(s: State, p: Plan, n: nat, l: Loc): Marks
    requires n <= |p.stores|
  {
    if n == 0 then TaintOf(s, l)
    else
      match p.stores[n - 1]
      case Assign(target, from) =>
        if l in OperandLocs(target) then SourceMarks(s, p, from) + ControlOf(s) else Assigned(s, p, n - 1, l)
      case Clear(r) =>
        if l == R(r) then (if Present(s, p, n - 1, l) then ControlOf(s) else {}) else Assigned(s, p, n - 1, l)
  }

  /** t holds the taint of s outside the scratch sets. */
  ghost predicate OffScratch(s: State, t: State) {
    forall l: Loc | !l.S? :: (l in t <==> l in s) && TaintOf(t, l) == TaintOf(s, l)
  }

  lemma OffScratchUnion(s: State, t: State, ls: set<Loc>)
    requires OffScratch(s, t) && forall l | l in ls :: !l.S?
    ensures UnionOf(t, ls) == UnionOf(s, ls)
  {
    forall m ensures m in UnionOf(t, ls) <==> m in UnionOf(s, ls) {
      UnionHas(s, ls, m);
      UnionHas(t, ls, m);
    }
  }

  lemma OffScratchControl(s: State, t: State)
    requires OffScratch(s, t)
    ensures ControlOf(t) == ControlOf(s)
  {
    forall m ensures m in ControlOf(t) <==> m in ControlOf(s) {
      ControlHas(s, m);
      ControlHas(t, m);
    }
  }

  /** A load reads what the operand held before the plan, whatever the scratch sets hold. */
  lemma LoadStep(s: State, t: State, k: Load)
    requires OffScratch(s, t)
    ensures OffScratch(s, Apply(t, LoadEvent(k)))
    ensures TaintOf(Apply(t, LoadEvent(k)), S(k.into)) == TaintOfOperand(s, k.op)
    ensures forall x | x != k.into :: TaintOf(Apply(t, LoadEvent(k)), S(x)) == TaintOf(t, S(x))
  {
    if k.op.Memory? {
      OffScratchUnion(s, t, MemLocs(k.op.start, k.op.size));
    }
  }

  /** After n loads the loaded scratch sets hold the operands' taint and nothing else has changed. */
  ghost predicate Loaded(s: State, p: Plan, n: nat, t: State)
    requires n <= |p.loads|
  {
    && OffScratch(s, t)
    && forall k | 0 <= k < n :: TaintOf(t, S(p.loads[k].into)) == TaintOfOperand(s, p.loads[k].op)
  }

  lemma {:induction false} LoadsHold(s: State, p: Plan, n: nat)
    requires WellFormed(p) && n <= |p.loads|
    ensures Loaded(s, p, n, Run(s, Calls(p), n))
  {
    hide OffScratch, TaintOfOperand, Apply, Calls;
    if n > 0 {
      LoadsHold(s, p, n - 1);
      RunOfLoads(s, p, n - 1);
      LoadedStep(s, p, n - 1, Run(s, Calls(p), n - 1));
    } else {
      assert OffScratch(s, s) by {
        SameOffScratch(s);
      }
    }
  }

  lemma SameOffScratch(s: State)
    ensures OffScratch(s, s)
  {
  }

  lemma RunOfLoads(s: State, p: Plan, n: nat)
    requires WellFormed(p) && n < |p.loads|
    ensures Run(s, Calls(p), n + 1) == Apply(Run(s, Calls(p), n), LoadEvent(p.loads[n]))
  {
    hide Apply;
  }

  lemma LoadedStep(s: State, p: Plan, n: nat, t: State)
    requires WellFormed(p) && n < |p.loads| && Loaded(s, p, n, t)
    ensures Loaded(s, p, n + 1, Apply(t, LoadEvent(p.loads[n])))
  {
    hide OffScratch, TaintOfOperand, Apply;
    LoadStep(s, t, p.loads[n]);
  }

  /** A store from loaded scratch sets writes the taint that their operands held. */
  lemma SourcesHold(s: State, p: Plan, t: State, from: seq<Scratch>)
    requires WellFormed(p) && Scratched(s, p, t) && forall x | x in from :: LoadedInto(p, x)
    ensures Written(t, from) == SourceMarks(s, p, from) + ControlOf(s)
  {
    var ls := ScratchLocs(from);
    forall m ensures m in UnionOf(t, ls) <==> m in SourceMarks(s, p, from) {
      UnionHas(t, ls, m);
      if l :| l in ls && m in TaintOf(t, l) {
        var k :| 0 <= k < |p.loads| && p.loads[k].into == l.scratch;
        assert m in TaintOfOperand(s, p.loads[k].op);
      }
      if k :| 0 <= k < |p.loads| && p.loads[k].into in from && m in TaintOfOperand(s, p.loads[k].op) {
        assert S(p.loads[k].into) in ls;
      }
    }
  }

  /** The scratch sets hold the operands' taint, and control taint is as before. */
  ghost predicate Scratched(s: State, p: Plan, t: State) {
    && (forall k | 0 <= k < |p.loads| :: TaintOf(t, S(p.loads[k].into)) == TaintOfOperand(s, p.loads[k].op))
    && ControlOf(t) == ControlOf(s)
  }

  ghost predicate Stored(s: State, p: Plan, n: nat, t: State)
    requires n <= |p.stores|
  {
    && Scratched(s, p, t)
    && forall l: Loc | !l.S? :: (l in t <==> Present(s, p, n, l)) && TaintOf(t, l) == Assigned(s, p, n, l)
  }

  /** A store writes the target's locations only. */
  lemma StoreStep(s: State, p: Plan, n: nat, t: State)
    requires WellFormed(p) && n < |p.stores| && Stored(s, p, n, t)
    ensures Stored(s, p, n + 1, Apply(t, StoreEvent(p.stores[n])))
  {
    match p.stores[n]
    case Assign(target, from) =>
      SourcesHold(s, p, t, from);
      assert Apply(t, StoreEvent(p.stores[n])) == Write(t, OperandLocs(target), Written(t, from));
      StoreAt(s, p, n, t, OperandLocs(target), Written(t, from));
    case Clear(r) =>
      assert Apply(t, StoreEvent(p.stores[n])) == Write(t, {R(r)} * t.Keys, ControlOf(t));
      StoreAt(s, p, n, t, {R(r)} * t.Keys, ControlOf(t));
  }

  lemma StoreAt(s: State, p: Plan, n: nat, t: State, ls: set<Loc>, m: Marks)
    requires WellFormed(p) && n < |p.stores| && Stored(s, p, n, t)
    requires p.stores[n].Assign? ==>
               ls == OperandLocs(p.stores[n].target) && m == SourceMarks(s, p, p.stores[n].from) + ControlOf(s)
    requires p.stores[n].Clear? ==> ls == {R(p.stores[n].reg)} * t.Keys && m == ControlOf(s)
    ensures Stored(s, p, n + 1, Write(t, ls, m))
  {
    hide SourceMarks, TaintOfOperand, ControlOf, Present, Assigned;
    var u := Write(t, ls, m);
    assert forall l | l in ls :: l.R? || l.M?;
    assert ControlOf(u) == ControlOf(s) by {
      forall k ensures k in ControlOf(u) <==> k in ControlOf(t) {
        ControlHas(t, k);
        ControlHas(u, k);
      }
    }
    forall l: Loc | !l.S? ensures (l in u <==> Present(s, p, n + 1, l)) && TaintOf(u, l) == Assigned(s, p, n + 1, l) {
      WriteAt(t, ls, m, l);
      PresentStep(s, p, n, l);
      AssignedStep(s, p, n, l);
    }
  }

  lemma PresentStep(s: State, p: Plan, n: nat, l: Loc)
    requires n < |p.stores|
    ensures Present(s, p, n + 1, l) <==>
            Present(s, p, n, l) || (p.stores[n].Assign? && l in OperandLocs(p.stores[n].target))
  {
    hide OperandLocs;
  }

  lemma AssignedStep(s: State, p: Plan, n: nat, l: Loc)
    requires n < |p.stores|
    ensures Assigned(s, p, n + 1, l) ==
            match p.stores[n]
            case Assign(target, from) =>
              if l in OperandLocs(target) then SourceMarks(s, p, from) + ControlOf(s) else Assigned(s, p, n, l)
            case Clear(r) =>
              if l == R(r) then (if Present(s, p, n, l) then ControlOf(s) else {}) else Assigned(s, p, n, l)
  {
  }

  lemma {:induction false} StoresHold(s: State, p: Plan, n: nat)
    requires WellFormed(p) && n <= |p.stores|
    ensures Stored(s, p, n, Run(s, Calls(p), |p.loads| + n))
  {
    hide Apply, Assigned, Present, TaintOfOperand, ControlOf, SourceMarks, OffScratch, Calls;
    if n > 0 {
      StoresHold(s, p, n - 1);
      var t := Run(s, Calls(p), |p.loads| + n - 1);
      StoreStep(s, p, n - 1, t);
      RunOfCalls(s, p, n - 1);
    } else {
      LoadsHold(s, p, |p.loads|);
      StoredAtFirst(s, p, Run(s, Calls(p), |p.loads|));
    }
  }

  lemma RunOfCalls(s: State, p: Plan, n: nat)
    requires WellFormed(p) && n < |p.stores|
    ensures Run(s, Calls(p), |p.loads| + n + 1) == Apply(Run(s, Calls(p), |p.loads| + n), StoreEvent(p.stores[n]))
  {
    hide Apply;
  }

  lemma StoredAtFirst(s: State, p: Plan, t: State)
    requires Loaded(s, p, |p.loads|, t)
    ensures Stored(s, p, 0, t)
  {
    OffScratchControl(s, t);
  }

  /** Plans act as simultaneous assignments.  From any residue in the scratch sets, after any number of
      calls every register, byte and control entry holds what the stores so far assign to it from the
      state before the first call. */
  lemma ActsSimultaneously(s: State, p: Plan, calls: nat, l: Loc)
    requires WellFormed(p) && calls <= |p.loads| + |p.stores| && !l.S?
    ensures TaintOf(Run(s, Calls(p), calls), l) ==
            Assigned(s, p, if calls <= |p.loads| then 0 else calls - |p.loads|, l)
  {
    hide Apply, Calls, Present, TaintOfOperand, ControlOf, SourceMarks;
    if calls <= |p.loads| {
      LoadsHold(s, p, calls);
    } else {
      StoresHold(s, p, calls - |p.loads|);
    }
  }

  /** The state after all calls of a plan. */
  ghost function After(s: State, p: Plan): State
    requires WellFormed(p)
  {
    Run(s, Calls(p), |p.loads| + |p.stores|)
  }

  lemma AfterAll(s: State, p: Plan, l: Loc)
    requires WellFormed(p) && !l.S?
    ensures TaintOf(After(s, p), l) == Assigned(s, p, |p.stores|, l)
  {
    if p.stores == [] {
      ActsSimultaneously(s, p, |p.loads|, l);
    } else {
      ActsSimultaneously(s, p, |p.loads| + |p.stores|, l);
    }
  }

  lemma OneSource(s: State, p: Plan, i: nat, x: Scratch)
    requires WellFormed(p) && i < |p.loads| && p.loads[i].into == x
    ensures SourceMarks(s, p, [x]) == TaintOfOperand(s, p.loads[i].op)
  {
    hide TaintOfOperand;
  }

  lemma TwoSources(s: State, p: Plan, i: nat, j: nat, x: Scratch, y: Scratch)
    requires WellFormed(p) && i < |p.loads| && j < |p.loads| && p.loads[i].into == x && p.loads[j].into == y
    ensures SourceMarks(s, p, [x, y]) == TaintOfOperand(s, p.loads[i].op) + TaintOfOperand(s, p.loads[j].op)
  {
    hide TaintOfOperand;
  }

  lemma ThreeSources(s: State, p: Plan, i: nat, j: nat, k: nat, x: Scratch, y: Scratch, z: Scratch)
    requires WellFormed(p) && i < |p.loads| && j < |p.loads| && k < |p.loads|
    requires p.loads[i].into == x && p.loads[j].into == y && p.loads[k].into == z
    ensures SourceMarks(s, p, [x, y, z]) ==
            TaintOfOperand(s, p.loads[i].op) + TaintOfOperand(s, p.loads[j].op) + TaintOfOperand(s, p.loads[k].op)
  {
    hide TaintOfOperand;
  }

  lemma RegisterTaint(s: State, r: Reg)
    ensures TaintOfOperand(s, Register(r)) == TaintOf(s, R(r))
  {
  }

  /** A plan leaves control taint alone. */
  lemma ControlKept(s: State, p: Plan)
    requires WellFormed(p)
    ensures ControlOf(After(s, p)) == ControlOf(s)
  {
    StoresHold(s, p, |p.stores|);
  }
}
