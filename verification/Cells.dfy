/** Taint locations backed by mutable bitsets that share no storage. */
module Cells {
  import opened Words
  import opened Bitsets
  import opened Taint

  type CellMap = map<Loc, Bitset>

  ghost function Storage(cells: CellMap): set<array<Word>> {
    set l | l in cells :: cells[l].bits
  }

  /** All bitsets are well-formed and of the given width, and no two locations share storage. */
  ghost predicate Apart(cells: CellMap, marks: nat)
    reads Storage(cells)
  {
    && (forall l | l in cells :: cells[l].nbits == marks && cells[l].Valid())
    && (forall l, k | l in cells && k in cells && l != k :: cells[l].bits != cells[k].bits)
  }

  /** The taint that the cells hold. */
  ghost function Held(cells: CellMap): State
    reads Storage(cells)
  {
    map l | l in cells :: cells[l].Marks()
  }

  lemma CellHeld(cells: CellMap, l: Loc, marks: nat)
    requires Apart(cells, marks) && l in cells
    ensures cells[l].bits in Storage(cells) && cells[l].Valid() && cells[l].nbits == marks
    ensures cells[l].Marks() == TaintOf(Held(cells), l)
  {
  }

  lemma HeldKeys(cells: CellMap)
    ensures forall l :: l in Held(cells) <==> l in cells
  {
  }

  /** Overwriting one cell in place changes no other. */
  method Overwrite(ghost cells: CellMap, ghost l: Loc, cell: Bitset, src: Bitset, ghost marks: nat)
    requires Apart(cells, marks) && l in cells && cells[l] == cell
    requires src.Valid() && src.nbits == marks
    modifies cell.bits
    ensures Apart(cells, marks) && Held(cells) == old(Held(cells))[l := old(src.Marks())]
  {
    cell.SetAll(src);
    forall k | k in cells && k != l ensures cells[k].Valid() && cells[k].Marks() == old(cells[k].Marks()) {
      assert cells[k].bits != cell.bits;
    }
  }

  /** Emptying one cell in place changes no other. */
  method Empty(ghost cells: CellMap, ghost l: Loc, cell: Bitset, ghost marks: nat)
    requires Apart(cells, marks) && l in cells && cells[l] == cell
    modifies cell.bits
    ensures Apart(cells, marks) && Held(cells) == old(Held(cells))[l := {}]
  {
    cell.Reset();
    forall k | k in cells && k != l ensures cells[k].Valid() && cells[k].Marks() == old(cells[k].Marks()) {
      assert cells[k].bits != cell.bits;
    }
  }

  /** Adding to one cell in place changes no other. */
  method Extend(ghost cells: CellMap, ghost l: Loc, cell: Bitset, src: Bitset, ghost marks: nat)
    requires Apart(cells, marks) && l in cells && cells[l] == cell
    requires src.Valid() && src.nbits == marks
    modifies cell.bits
    ensures Apart(cells, marks)
    ensures Held(cells) == old(Held(cells))[l := old(cell.Marks()) + old(src.Marks())]
  {
    cell.Union(src);
    forall k | k in cells && k != l ensures cells[k].Valid() && cells[k].Marks() == old(cells[k].Marks()) {
      assert cells[k].bits != cell.bits;
    }
  }

  /** Binding a location to a bitset with storage of its own. */
  lemma Bind(cells: CellMap, l: Loc, cell: Bitset, marks: nat)
    requires Apart(cells, marks) && cell.Valid() && cell.nbits == marks && cell.bits !in Storage(cells)
    ensures Apart(cells[l := cell], marks) && Held(cells[l := cell]) == Held(cells)[l := cell.Marks()]
    ensures Storage(cells[l := cell]) <= Storage(cells) + {cell.bits}
  {
    var cells' := cells[l := cell];
    forall k | k in cells && k != l ensures cells'[k] == cells[k] && cells[k].bits in Storage(cells) {}
  }

  /** Forgetting a location. */
  lemma Unbind(cells: CellMap, l: Loc, marks: nat)
    requires Apart(cells, marks)
    ensures Apart(cells - {l}, marks) && Held(cells - {l}) == Held(cells) - {l}
    ensures Storage(cells - {l}) <= Storage(cells)
  {
  }

  // ---------------------------------------------------------------- the engine's maps

  /** The cells are exactly the entries of the four maps. */
  ghost predicate Tied(cells: CellMap, regs: map<Reg, Bitset>, mem: map<nat, Bitset>, control: map<nat, Bitset>,
                       scratch: map<Scratch, Bitset>)
  {
    forall l: Loc ::
      match l
      case R(r) => if r in regs then l in cells && cells[l] == regs[r] else l !in cells
      case M(a) => if a in mem then l in cells && cells[l] == mem[a] else l !in cells
      case C(b) => if b in control then l in cells && cells[l] == control[b] else l !in cells
      case S(x) => if x in scratch then l in cells && cells[l] == scratch[x] else l !in cells
  }

  lemma TiedBind(cells: CellMap, regs: map<Reg, Bitset>, mem: map<nat, Bitset>, control: map<nat, Bitset>,
                 scratch: map<Scratch, Bitset>, r: Reg, a: nat, b: nat, cell: Bitset)
    requires Tied(cells, regs, mem, control, scratch)
    ensures Tied(cells[R(r) := cell], regs[r := cell], mem, control, scratch)
    ensures Tied(cells[M(a) := cell], regs, mem[a := cell], control, scratch)
    ensures Tied(cells[C(b) := cell], regs, mem, control[b := cell], scratch)
    ensures Tied(cells - {C(b)}, regs, mem, control - {b}, scratch)
  {
  }

  lemma TiedScratch(cells: CellMap, scratch: map<Scratch, Bitset>, x: Scratch, cell: Bitset)
    requires Tied(cells, map[], map[], map[], scratch)
    ensures Tied(cells[S(x) := cell], map[], map[], map[], scratch[x := cell])
  {
  }
}
