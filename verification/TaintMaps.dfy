/** The taint maps: registers, memory, pending control entries and scratch sets over mutable bitsets. */
module TaintMaps {
  import opened Bitsets
  import opened Cells
  import opened Taint

  const SCRATCH_SETS: seq<Scratch> :=
    [DEST, SRC, EAX_SET, EDX_SET, BASE, IDX, EFLAGS_SET, CNT, RAX_SET, RDX_SET, RFLAGS_SET]

  /** Before the first event only the scratch sets exist, and they are empty. */
  ghost function Initial(): State {
    Emptied(SCRATCH_SETS)
  }

  lemma AllScratchSets()
    ensures forall x :: x in SCRATCH_SETS
  {
    forall x ensures x in SCRATCH_SETS {
      match x
      case DEST => assert SCRATCH_SETS[0] == x;
      case SRC => assert SCRATCH_SETS[1] == x;
      case EAX_SET => assert SCRATCH_SETS[2] == x;
      case EDX_SET => assert SCRATCH_SETS[3] == x;
      case BASE => assert SCRATCH_SETS[4] == x;
      case IDX => assert SCRATCH_SETS[5] == x;
      case EFLAGS_SET => assert SCRATCH_SETS[6] == x;
      case CNT => assert SCRATCH_SETS[7] == x;
      case RAX_SET => assert SCRATCH_SETS[8] == x;
      case RDX_SET => assert SCRATCH_SETS[9] == x;
      case RFLAGS_SET => assert SCRATCH_SETS[10] == x;
    }
  }

  lemma NoScratch()
    ensures Held(map[]) == Emptied([]) && Tied(map[], map[], map[], map[], map[])
  {
  }

  /** Creates the scratch globals. */
  method CreateScratch(marks: nat) returns (sets: map<Scratch, Bitset>, ghost cells: CellMap)
    ensures Tied(cells, map[], map[], map[], sets) && Apart(cells, marks) && fresh(Storage(cells))
    ensures (forall x :: x in sets) && Held(cells) == Initial()
  {
    hide Held, Tied, Emptied, Bitset.Valid, Bitset.Marks;
    sets, cells := map[], map[];
    NoScratch();
    assert SCRATCH_SETS[..0] == [] && SCRATCH_SETS[..|SCRATCH_SETS|] == SCRATCH_SETS;
    AllScratchSets();
    for i := 0 to |SCRATCH_SETS|
      invariant forall x :: x in sets <==> x in SCRATCH_SETS[..i]
      invariant Tied(cells, map[], map[], map[], sets) && Apart(cells, marks) && fresh(Storage(cells))
      invariant Held(cells) == Emptied(SCRATCH_SETS[..i])
    {
      var x := SCRATCH_SETS[i];
      var set_ := new Bitset.Init(marks);
      Bind(cells, S(x), set_, marks);
      TiedScratch(cells, sets, x, set_);
      EmptiedStep(i);
      sets, cells := sets[x := set_], cells[S(x) := set_];
    }
  }

  ghost function Emptied(xs: seq<Scratch>): State {
    map x | x in xs :: S(x) := {}
  }

  lemma EmptiedStep(i: nat)
    requires i < |SCRATCH_SETS|
    ensures Emptied(SCRATCH_SETS[..i + 1]) == Emptied(SCRATCH_SETS[..i])[S(SCRATCH_SETS[i]) := {}]
    ensures forall x :: x in SCRATCH_SETS[..i + 1] <==> x in SCRATCH_SETS[..i] || x == SCRATCH_SETS[i]
  {
    assert SCRATCH_SETS[..i + 1] == SCRATCH_SETS[..i] + [SCRATCH_SETS[i]];
  }

  class Maps {
    const marks: nat
    const scratch: map<Scratch, Bitset>
    var regTaintMap: map<Reg, Bitset>
    var memTaintMap: map<nat, Bitset>
    var controlTaintMap: map<nat, Bitset>
    ghost var cells: CellMap

    /** All bitsets in the maps and the scratch globals have one width and share no storage. */
    ghost predicate Valid()
      reads this, Storage(cells)
    {
      && Tied(cells, regTaintMap, memTaintMap, controlTaintMap, scratch)
      && Apart(cells, marks)
      && forall x :: x in scratch
    }

    /** The taint of every location. */
    ghost function Abs(): State
      reads `cells, Storage(cells)
    {
      Held(cells)
    }

    constructor (marks: nat)
      ensures Valid() && Abs() == Initial() && this.marks == marks && fresh(Storage(cells))
    {
      ghost var cs;
      var sets;
      sets, cs := CreateScratch(marks);
      this.marks, scratch := marks, sets;
      regTaintMap, memTaintMap, controlTaintMap := map[], map[], map[];
      cells := cs;
    }

    // -------------------------------------------------------------- single entries

    method AssignReg(r: Reg, src: Bitset)
      requires Valid() && src.Valid() && src.nbits == marks && src.bits !in Storage(cells)
      modifies `regTaintMap, `cells, Storage(cells)
      ensures Valid() && fresh(Storage(cells) - old(Storage(cells))) && src.bits !in Storage(cells)
      ensures Abs() == old(Abs())[R(r) := old(src.Marks())]
    {
      hide Held;
      if r in regTaintMap {
        CellHeld(cells, R(r), marks);
        Overwrite(cells, R(r), regTaintMap[r], src, marks);
      } else {
        var copy := new Bitset.Copy(src);
        Bind(cells, R(r), copy, marks);
        TiedBind(cells, regTaintMap, memTaintMap, controlTaintMap, scratch, r, 0, 0, copy);
        regTaintMap, cells := regTaintMap[r := copy], cells[R(r) := copy];
      }
    }

    method AssignMem(a: nat, src: Bitset)
      requires Valid() && src.Valid() && src.nbits == marks && src.bits !in Storage(cells)
      modifies `memTaintMap, `cells, Storage(cells)
      ensures Valid() && fresh(Storage(cells) - old(Storage(cells))) && src.bits !in Storage(cells)
      ensures Abs() == old(Abs())[M(a) := old(src.Marks())]
    {
      hide Held;
      if a in memTaintMap {
        CellHeld(cells, M(a), marks);
        Overwrite(cells, M(a), memTaintMap[a], src, marks);
      } else {
        ReplaceMem(a, src);
      }
    }

    /** Binds a byte to a copy, whatever it was bound to. */
    method ReplaceMem(a: nat, src: Bitset)
      requires Valid() && src.Valid() && src.nbits == marks && src.bits !in Storage(cells)
      modifies `memTaintMap, `cells
      ensures Valid() && fresh(Storage(cells) - old(Storage(cells))) && src.bits !in Storage(cells)
      ensures Abs() == old(Abs())[M(a) := old(src.Marks())]
    {
      hide Held;
      var copy := new Bitset.Copy(src);
      Bind(cells, M(a), copy, marks);
      TiedBind(cells, regTaintMap, memTaintMap, controlTaintMap, scratch, FLAGS, a, 0, copy);
      memTaintMap, cells := memTaintMap[a := copy], cells[M(a) := copy];
    }

    // -------------------------------------------------------------- unions

    /** A new bitset, apart from all others. */
    method NewSet() returns (set_: Bitset)
      requires Valid()
      ensures fresh(set_) && fresh(set_.bits) && set_.bits !in Storage(cells)
      ensures set_.Valid() && set_.nbits == marks && set_.Marks() == {}
      ensures Valid() && Abs() == old(Abs())
    {
      set_ := new Bitset.Init(marks);
    }

    /** The union of all pending control entries, in a bitset of its own. */
    method ControlTaint() returns (controlTaint: Bitset)
      requires Valid()
      ensures fresh(controlTaint.bits) && controlTaint.bits !in Storage(cells)
      ensures controlTaint.Valid() && controlTaint.nbits == marks && controlTaint.Marks() == ControlOf(Abs())
      ensures Valid() && Abs() == old(Abs())
    {
      hide Held, Apart, UnionOf, ControlOf, Bitset.Valid, Bitset.Marks;
      ghost var s, done := Abs(), {};
      HeldKeys(cells);
      NoLocs(s, 0);
      controlTaint := NewSet();
      var rest := controlTaintMap.Keys;
      while rest != {}
        invariant rest <= controlTaintMap.Keys && done == set b | b in controlTaintMap.Keys - rest :: C(b)
        invariant Apart(cells, marks) && Held(cells) == s
        invariant controlTaint.Valid() && controlTaint.Marks() == UnionOf(s, done)
        decreases |rest|
      {
        var b :| b in rest;
        CellHeld(cells, C(b), marks);
        UnionStep(s, done, C(b));
        controlTaint.Union(controlTaintMap[b]);
        rest := rest - {b};
        done := done + {C(b)};
      }
      ControlIsUnion(s, done);
    }

    /** The union of some scratch sets and all pending control entries, in a bitset of its own. */
    method SourceTaint(from: seq<Scratch>) returns (tmp: Bitset)
      requires Valid()
      ensures fresh(tmp.bits) && tmp.bits !in Storage(cells)
      ensures tmp.Valid() && tmp.nbits == marks && tmp.Marks() == Written(Abs(), from)
      ensures Valid() && Abs() == old(Abs())
    {
      hide Held, Apart, UnionOf, ControlOf, ScratchLocs, Bitset.Valid, Bitset.Marks;
      ghost var s := Abs();
      NoLocs(s, 0);
      tmp := NewSet();
      assert from[..0] == [];
      for i := 0 to |from|
        invariant Apart(cells, marks) && Held(cells) == s
        invariant tmp.Valid() && tmp.Marks() == UnionOf(s, ScratchLocs(from[..i]))
      {
        CellHeld(cells, S(from[i]), marks);
        ScratchLocsStep(from, i);
        UnionStep(s, ScratchLocs(from[..i]), S(from[i]));
        tmp.Union(scratch[from[i]]);
      }
      assert from[..|from|] == from;
      var controlTaint := ControlTaint();
      tmp.Union(controlTaint);
    }

    // -------------------------------------------------------------- reading taint into a scratch set

    method ClearTaintSet(into: Scratch)
      requires Valid()
      modifies Storage(cells)
      ensures Valid() && cells == old(cells) && Abs() == Apply(old(Abs()), ClearScratch(into))
    {
      hide Held, Apart, Write;
      ghost var s := Abs();
      HeldKeys(cells);
      CellHeld(cells, S(into), marks);
      Empty(cells, S(into), scratch[into], marks);
      WriteOne(s, S(into), {});
    }

    method TaintForRegister(reg: Reg, into: Scratch)
      requires Valid()
      modifies Storage(cells)
      ensures Valid() && cells == old(cells) && Abs() == Apply(old(Abs()), LoadReg(reg, into))
    {
      hide Held, Apart, Write, Bitset.Valid, Bitset.Marks;
      ghost var s := Abs();
      HeldKeys(cells);
      CellHeld(cells, S(into), marks);
      if reg in regTaintMap {
        CellHeld(cells, R(reg), marks);
        Overwrite(cells, S(into), scratch[into], regTaintMap[reg], marks);
      } else {
        Empty(cells, S(into), scratch[into], marks);
      }
      WriteOne(s, S(into), TaintOf(s, R(reg)));
    }

    method TaintForMemory(start: nat, size: nat, into: Scratch)
      requires Valid()
      modifies Storage(cells)
      ensures Valid() && cells == old(cells) && Abs() == Apply(old(Abs()), LoadMem(start, size, into))
    {
      hide Held, Apart, Write, UnionOf, MemLocs, Bitset.Valid, Bitset.Marks;
      ghost var s := Abs();
      HeldKeys(cells);
      CellHeld(cells, S(into), marks);
      Empty(cells, S(into), scratch[into], marks);
      NoLocs(s, start);
      for addr := start to start + size
        invariant Valid() && Abs() == s[S(into) := UnionOf(s, MemLocs(start, addr - start))]
      {
        MemLocsStep(start, addr - start);
        UnionStep(s, MemLocs(start, addr - start), M(addr));
        ghost var t := UnionOf(s, MemLocs(start, addr - start));
        if addr in memTaintMap {
          CellHeld(cells, S(into), marks);
          CellHeld(cells, M(addr), marks);
          Extend(cells, S(into), scratch[into], memTaintMap[addr], marks);
          UpdateTwice(s, S(into), t, t + TaintOf(s, M(addr)));
        } else {
          assert t + {} == t;
        }
      }
      WriteOne(s, S(into), UnionOf(s, MemLocs(start, size)));
    }

    // -------------------------------------------------------------- writing registers

    method SetTaintForRegister(dest: Reg, from: seq<Scratch>)
      requires Valid()
      modifies `regTaintMap, `cells, Storage(cells)
      ensures Valid() && Abs() == Apply(old(Abs()), SetReg(dest, from))
      ensures fresh(Storage(cells) - old(Storage(cells)))
    {
      hide Held, Apart, Tied, Written, Write, RegLocs, Bitset.Valid, Bitset.Marks;
      ghost var s := Abs();
      WriteRegister(s, dest, Written(s, from));
      if dest == ESP || dest == EBP {
        return;
      }
      var tmp := SourceTaint(from);
      SetSubregisters(dest, tmp);
      AssignReg(dest, tmp);
    }

    /** Gives the registers that hold part of dest the taint of tmp. */
    method SetSubregisters(dest: Reg, tmp: Bitset)
      requires Valid() && tmp.Valid() && tmp.nbits == marks && tmp.bits !in Storage(cells)
      requires dest != ESP && dest != EBP
      modifies `regTaintMap, `cells, Storage(cells)
      ensures Valid() && fresh(Storage(cells) - old(Storage(cells))) && tmp.bits !in Storage(cells)
      ensures Abs()[R(dest) := old(tmp.Marks())] == Write(old(Abs()), RegLocs(dest), old(tmp.Marks()))
    {
      hide Held, Apart, Tied, Write, RegLocs, Bitset.Valid, Bitset.Marks;
      WriteRegister(Abs(), dest, tmp.Marks());
      if dest == R15D {
        AssignReg(R15W, tmp);
        AssignReg(R15B, tmp);
      }
      if dest == EAX {
        AssignRegs(AX, AH, AL, tmp);
      } else if dest == EBX {
        AssignRegs(BX, BH, BL, tmp);
      } else if dest == ECX {
        AssignRegs(CX, CH, CL, tmp);
      } else if dest == EDX {
        AssignRegs(DX, DH, DL, tmp);
      }
    }

    method AssignRegs(r0: Reg, r1: Reg, r2: Reg, src: Bitset)
      requires Valid() && src.Valid() && src.nbits == marks && src.bits !in Storage(cells)
      modifies `regTaintMap, `cells, Storage(cells)
      ensures Valid() && fresh(Storage(cells) - old(Storage(cells))) && src.bits !in Storage(cells)
      ensures var t := old(src.Marks()); Abs() == old(Abs())[R(r0) := t][R(r1) := t][R(r2) := t]
    {
      hide Valid, Abs, Bitset.Valid, Bitset.Marks;
      AssignReg(r0, src);
      AssignReg(r1, src);
      AssignReg(r2, src);
    }

    method ClearTaintForRegister(reg: Reg)
      requires Valid()
      modifies Storage(cells)
      ensures Valid() && Abs() == Apply(old(Abs()), ClearReg(reg)) && cells == old(cells)
    {
      hide Held, Apart, ControlOf, Write, Bitset.Valid, Bitset.Marks;
      ghost var s := Abs();
      HeldKeys(cells);
      var controlTaint := ControlTaint();
      if reg in regTaintMap {
        CellHeld(cells, R(reg), marks);
        Overwrite(cells, R(reg), regTaintMap[reg], controlTaint, marks);
      }
      WriteIfHeld(s, R(reg), ControlOf(s));
    }

    // -------------------------------------------------------------- writing memory

    method ClearTaintForMemory(start: nat, size: nat)
      requires Valid()
      modifies Storage(cells)
      ensures Valid() && Abs() == Apply(old(Abs()), ClearMem(start, size)) && cells == old(cells)
    {
      hide Held, Apart, ControlOf, Write, MemLocs, Bitset.Valid, Bitset.Marks;
      ghost var s := Abs();
      HeldKeys(cells);
      var controlTaint := ControlTaint();
      NoLocs(s, start);
      WriteNothing(s, ControlOf(s));
      for addr := start to start + size
        invariant Valid() && controlTaint.Valid() && controlTaint.Marks() == ControlOf(s)
        invariant Abs() == Write(s, MemLocs(start, addr - start) * s.Keys, ControlOf(s))
      {
        MemLocsStep(start, addr - start);
        KeysStep(s, MemLocs(start, addr - start), M(addr));
        if addr in memTaintMap {
          CellHeld(cells, M(addr), marks);
          WriteStep(s, MemLocs(start, addr - start) * s.Keys, M(addr), ControlOf(s));
          Overwrite(cells, M(addr), memTaintMap[addr], controlTaint, marks);
        }
      }
    }

    /** Gives every byte of a range the taint of src, in place where it has a bitset. */
    method AssignRange(start: nat, size: nat, src: Bitset)
      requires Valid() && src.Valid() && src.nbits == marks && src.bits !in Storage(cells)
      modifies `memTaintMap, `cells, Storage(cells)
      ensures Valid() && Abs() == Write(old(Abs()), MemLocs(start, size), old(src.Marks()))
      ensures fresh(Storage(cells) - old(Storage(cells)))
    {
      hide Held, Apart, Tied, Write, MemLocs, Bitset.Valid, Bitset.Marks;
      ghost var s, t := Abs(), src.Marks();
      NoLocs(s, start);
      WriteNothing(s, t);
      for addr := start to start + size
        invariant Valid() && src.Valid() && src.Marks() == t && src.bits !in Storage(cells)
        invariant Abs() == Write(s, MemLocs(start, addr - start), t)
        invariant fresh(Storage(cells) - old(Storage(cells)))
      {
        MemLocsStep(start, addr - start);
        WriteStep(s, MemLocs(start, addr - start), M(addr), t);
        AssignMem(addr, src);
      }
    }

    /** Gives every byte of a range a bitset of its own that holds one mark. */
    method SetNewTaintForMemory(start: nat, size: nat, mark: nat)
      requires Valid() && mark < marks
      modifies `memTaintMap, `cells
      ensures Valid() && Abs() == Apply(old(Abs()), NewTaint(start, size, mark))
      ensures fresh(Storage(cells) - old(Storage(cells)))
    {
      hide Held, Apart, Tied, Write, MemLocs, Bitset.Valid, Bitset.Marks;
      ghost var s := Abs();
      var tmp := new Bitset.Init(marks);
      tmp.SetBit(mark);
      NoLocs(s, start);
      WriteNothing(s, {mark});
      for addr := start to start + size
        invariant Valid() && tmp.Valid() && tmp.Marks() == {mark} && tmp.bits !in Storage(cells)
        invariant Abs() == Write(s, MemLocs(start, addr - start), {mark})
        invariant fresh(Storage(cells) - old(Storage(cells)))
      {
        MemLocsStep(start, addr - start);
        WriteStep(s, MemLocs(start, addr - start), M(addr), {mark});
        ReplaceMem(addr, tmp);
      }
    }

    // -------------------------------------------------------------- control taint

    method PushControl(addr: nat)
      requires Valid()
      modifies `controlTaintMap, `cells, Storage(cells)
      ensures Valid() && Abs() == Apply(old(Abs()), Push(addr))
      ensures fresh(Storage(cells) - old(Storage(cells)))
    {
      hide Held, Apart, Write, Bitset.Valid, Bitset.Marks;
      ghost var s := Abs();
      HeldKeys(cells);
      if FLAGS !in regTaintMap {
        return;
      }
      CellHeld(cells, R(FLAGS), marks);
      var clean := regTaintMap[FLAGS].IsEmpty();
      if clean {
        return;
      }
      JoinFlags(addr);
      WriteOne(s, C(addr), TaintOf(s, C(addr)) + TaintOf(s, R(FLAGS)));
    }

    /** Joins the flags' taint into a branch's entry. */
    method JoinFlags(addr: nat)
      requires Valid() && R(FLAGS) in cells
      modifies `controlTaintMap, `cells, Storage(cells)
      ensures Valid() && fresh(Storage(cells) - old(Storage(cells)))
      ensures Abs() == old(Abs())[C(addr) := TaintOf(old(Abs()), C(addr)) + TaintOf(old(Abs()), R(FLAGS))]
    {
      hide Held, Apart, Tied, Bitset.Valid, Bitset.Marks;
      ghost var s := Abs();
      OpenControl(addr);
      AddFlags(addr);
      ghost var t := TaintOf(s, C(addr));
      UpdateTwice(s, C(addr), t, t + TaintOf(s, R(FLAGS)));
    }

    /** Makes sure that a branch has an entry. */
    method OpenControl(addr: nat)
      requires Valid()
      modifies `controlTaintMap, `cells
      ensures Valid() && fresh(Storage(cells) - old(Storage(cells)))
      ensures C(addr) in cells && old(cells).Keys <= cells.Keys
      ensures Abs() == old(Abs())[C(addr) := TaintOf(old(Abs()), C(addr))]
    {
      hide Held;
      HeldKeys(cells);
      if addr !in controlTaintMap {
        var set_ := NewSet();
        Bind(cells, C(addr), set_, marks);
        TiedBind(cells, regTaintMap, memTaintMap, controlTaintMap, scratch, FLAGS, 0, addr, set_);
        controlTaintMap, cells := controlTaintMap[addr := set_], cells[C(addr) := set_];
      } else {
        assert Abs() == Abs()[C(addr) := TaintOf(Abs(), C(addr))];
      }
    }

    method AddFlags(addr: nat)
      requires Valid() && C(addr) in cells && R(FLAGS) in cells
      modifies Storage(cells)
      ensures Valid() && cells == old(cells)
      ensures Abs() == old(Abs())[C(addr) := TaintOf(old(Abs()), C(addr)) + TaintOf(old(Abs()), R(FLAGS))]
    {
      hide Held, Apart, Bitset.Valid, Bitset.Marks;
      CellHeld(cells, C(addr), marks);
      CellHeld(cells, R(FLAGS), marks);
      Extend(cells, C(addr), controlTaintMap[addr], regTaintMap[FLAGS], marks);
    }

    method PopControl(branches: seq<nat>)
      requires Valid()
      modifies `controlTaintMap, `cells
      ensures Valid() && Abs() == Apply(old(Abs()), Pop(branches)) && Storage(cells) <= old(Storage(cells))
    {
      hide Held, Apart, PopAll;
      ghost var s := Abs();
      assert branches[0..] == branches;
      for i := 0 to |branches|
        invariant Valid() && PopAll(Abs(), branches[i..]) == PopAll(s, branches)
        invariant Storage(cells) <= old(Storage(cells))
      {
        var addr := branches[i];
        PopStep(Abs(), branches, i);
        HeldKeys(cells);
        if addr !in controlTaintMap {
          return;
        }
        Unbind(cells, C(addr), marks);
        TiedBind(cells, regTaintMap, memTaintMap, controlTaintMap, scratch, FLAGS, 0, addr, controlTaintMap[addr]);
        controlTaintMap, cells := controlTaintMap - {addr}, cells - {C(addr)};
      }
      PopStep(Abs(), branches, |branches|);
    }
  }

  lemma ControlIsUnion(s: State, done: set<Loc>)
    requires forall l: Loc :: l in done <==> l.C? && l in s
    ensures UnionOf(s, done) == ControlOf(s)
  {
  }
}
