/** The taint propagation engine: the taint maps, the reverse index, and all that happened so far. */
module Engines {
  import opened Bitsets
  import opened Cells
  import opened Taint
  import opened TaintMaps
  import opened TagIndex
  import opened TagLists
  import opened TagRuns
  import opened TaintFlow

  class Engine {
    const maps: Maps
    const tags: TagMemory
    ghost var history: seq<Event>

    /** The objects that the engine may change. */
    ghost function Repr(): set<object>
      reads this, maps, tags
    {
      {this, maps, tags} + Storage(maps.cells) + tags.owned
    }

    /** The lists of the reverse index are what the events so far have made of empty lists, and no write so far
        was too large. */
    ghost predicate TagsHold()
      reads this, tags, tags.owned
    {
      && tags.Valid() && tags.marks == maps.marks && AllSized(history, |history|)
      && forall t | 0 <= t < tags.marks :: tags.records[t] == IndexAfter(Initial(), history, |history|, t)
    }

    /** The bitsets are apart, and they and the lists are what the events so far have made of the
        initial state. */
    ghost predicate Valid()
      reads this, maps, tags, Storage(maps.cells), tags.owned
    {
      maps.Valid() && TagsHold() && Abs() == Run(Initial(), history, |history|)
    }

    /** The taint of every location. */
    ghost function Abs(): State
      reads this, maps, Storage(maps.cells)
    {
      maps.Abs()
    }

    constructor (marks: nat)
      ensures Valid() && fresh(Repr()) && history == [] && maps.marks == marks
    {
      hide Maps.Valid, Maps.Abs, TagMemory.Valid, Initial;
      maps := new Maps(marks);
      tags := new TagMemory(marks);
      history := [];
    }

    /** Extends the history by an event that has just taken effect. */
    ghost method Record(e: Event, before: State)
      requires maps.Valid() && Abs() == Apply(before, e) && before == Run(Initial(), history, |history|)
      requires tags.Valid() && tags.marks == maps.marks && AllSized(history, |history|) && Sized(e)
      requires forall t | 0 <= t < tags.marks ::
                 var rs := IndexAfter(Initial(), history, |history|, t);
                 tags.records[t] == if e.SetMem? then Updated(rs, e.start, e.size, t in Written(before, e.from)) else rs
      modifies this
      ensures Valid() && history == old(history) + [e]
    {
      hide Initial, Apply, Run, IndexAfter, Updated, Written;
      var h := history;
      history := history + [e];
      ExtendRun(Initial(), h, e, 0);
      forall t | 0 <= t < tags.marks ensures tags.records[t] == IndexAfter(Initial(), history, |history|, t) {
        ExtendRun(Initial(), h, e, t);
      }
    }

    method ClearTaintSet(into: Scratch)
      requires Valid()
      modifies Repr()
      ensures Valid() && fresh(Repr() - old(Repr()))
      ensures history == old(history) + [ClearScratch(into)] && Abs() == Apply(old(Abs()), ClearScratch(into))
    {
      hide Maps.Valid, Maps.Abs, TagMemory.Valid, Apply, Run, IndexAfter;
      ghost var s := Abs();
      maps.ClearTaintSet(into);
      Record(ClearScratch(into), s);
    }

    method TaintForRegister(reg: Reg, into: Scratch)
      requires Valid()
      modifies Repr()
      ensures Valid() && fresh(Repr() - old(Repr()))
      ensures history == old(history) + [LoadReg(reg, into)] && Abs() == Apply(old(Abs()), LoadReg(reg, into))
    {
      hide Maps.Valid, Maps.Abs, TagMemory.Valid, Apply, Run, IndexAfter;
      ghost var s := Abs();
      maps.TaintForRegister(reg, into);
      Record(LoadReg(reg, into), s);
    }

    method TaintForMemory(start: nat, size: nat, into: Scratch)
      requires Valid()
      modifies Repr()
      ensures Valid() && fresh(Repr() - old(Repr()))
      ensures history == old(history) + [LoadMem(start, size, into)]
      ensures Abs() == Apply(old(Abs()), LoadMem(start, size, into))
    {
      hide Maps.Valid, Maps.Abs, TagMemory.Valid, Apply, Run, IndexAfter;
      ghost var s := Abs();
      maps.TaintForMemory(start, size, into);
      Record(LoadMem(start, size, into), s);
    }

    method SetTaintForRegister(dest: Reg, from: seq<Scratch>)
      requires Valid()
      modifies Repr()
      ensures Valid() && fresh(Repr() - old(Repr()))
      ensures history == old(history) + [SetReg(dest, from)] && Abs() == Apply(old(Abs()), SetReg(dest, from))
    {
      hide Maps.Valid, Maps.Abs, TagMemory.Valid, Apply, Run, IndexAfter;
      ghost var s := Abs();
      maps.SetTaintForRegister(dest, from);
      Record(SetReg(dest, from), s);
    }

    method ClearTaintForRegister(reg: Reg)
      requires Valid()
      modifies Repr()
      ensures Valid() && fresh(Repr() - old(Repr()))
      ensures history == old(history) + [ClearReg(reg)] && Abs() == Apply(old(Abs()), ClearReg(reg))
    {
      hide Maps.Valid, Maps.Abs, TagMemory.Valid, Apply, Run, IndexAfter;
      ghost var s := Abs();
      maps.ClearTaintForRegister(reg);
      Record(ClearReg(reg), s);
    }

    method ClearTaintForMemory(start: nat, size: nat)
      requires Valid()
      modifies Repr()
      ensures Valid() && fresh(Repr() - old(Repr()))
      ensures history == old(history) + [ClearMem(start, size)] && Abs() == Apply(old(Abs()), ClearMem(start, size))
    {
      hide Maps.Valid, Maps.Abs, TagMemory.Valid, Apply, Run, IndexAfter;
      ghost var s := Abs();
      maps.ClearTaintForMemory(start, size);
      Record(ClearMem(start, size), s);
    }

    /** Updates the reverse index for a write of the taint `written`. */
    method UpdateIndex(start: nat, size: nat, written: Bitset)
      requires Valid() && Range(start, size) && written.Valid() && written.nbits == maps.marks
      requires written.bits !in Storage(maps.cells)
      modifies tags, tags.owned
      ensures tags.Valid() && fresh(tags.owned - old(tags.owned))
      ensures forall t | 0 <= t < tags.marks ::
                tags.records[t] ==
                Updated(IndexAfter(Initial(), history, |history|, t), start, size, t in old(written.Marks()))
      ensures maps.Valid() && Abs() == old(Abs()) && written.Valid() && written.Marks() == old(written.Marks())
    {
      hide Maps.Valid, Maps.Abs, TagMemory.Valid, Bitset.Valid, Bitset.Marks, IndexAfter, Updated, Initial, Run;
      tags.Update(start, size, written);
    }

    /** Writes memory, after updating the reverse index. */
    method SetTaintForMemory(start: nat, size: nat, from: seq<Scratch>)
      requires Valid() && Range(start, size)
      modifies Repr()
      ensures Valid() && fresh(Repr() - old(Repr()))
      ensures history == old(history) + [SetMem(start, size, from)]
      ensures Abs() == Apply(old(Abs()), SetMem(start, size, from))
    {
      hide Maps.Valid, Maps.Abs, TagMemory.Valid, Bitset.Valid, Bitset.Marks, Apply, Written, Write, MemLocs, Run,
        IndexAfter, Range, Updated, Initial;
      ghost var s := Abs();
      ApplySetMem(s, start, size, from);
      var tmp := maps.SourceTaint(from);
      UpdateIndex(start, size, tmp);
      maps.AssignRange(start, size, tmp);
      Record(SetMem(start, size, from), s);
    }

    method SetNewTaintForMemory(start: nat, size: nat, mark: nat)
      requires Valid() && mark < maps.marks
      modifies Repr()
      ensures Valid() && fresh(Repr() - old(Repr()))
      ensures history == old(history) + [NewTaint(start, size, mark)]
      ensures Abs() == Apply(old(Abs()), NewTaint(start, size, mark))
    {
      hide Maps.Valid, Maps.Abs, TagMemory.Valid, Apply, Run, IndexAfter;
      ghost var s := Abs();
      maps.SetNewTaintForMemory(start, size, mark);
      Record(NewTaint(start, size, mark), s);
    }

    /** Binds a byte to a copy of a set that holds one new mark, as the taint sources do. */
    method BindByte(addr: nat, set_: Bitset, ghost mark: nat)
      requires Valid() && set_.bits !in Storage(maps.cells)
      requires set_.Valid() && set_.nbits == maps.marks && set_.Marks() == {mark}
      modifies Repr()
      ensures Valid() && fresh(Repr() - old(Repr())) && set_.bits !in Storage(maps.cells)
      ensures history == old(history) + [NewTaint(addr, 1, mark)] && Abs() == old(Abs())[M(addr) := {mark}]
      ensures set_.Valid() && set_.Marks() == {mark}
    {
      hide Maps.Valid, Maps.Abs, TagMemory.Valid, Apply, Run, IndexAfter, Bitset.Valid, Bitset.Marks;
      ghost var s := Abs();
      ApplyNewTaint(s, addr, mark);
      maps.ReplaceMem(addr, set_);
      Record(NewTaint(addr, 1, mark), s);
    }

    method PushControl(addr: nat)
      requires Valid()
      modifies Repr()
      ensures Valid() && fresh(Repr() - old(Repr()))
      ensures history == old(history) + [Push(addr)] && Abs() == Apply(old(Abs()), Push(addr))
    {
      hide Maps.Valid, Maps.Abs, TagMemory.Valid, Apply, Run, IndexAfter;
      ghost var s := Abs();
      maps.PushControl(addr);
      Record(Push(addr), s);
    }

    method PopControl(branches: seq<nat>)
      requires Valid()
      modifies Repr()
      ensures Valid() && fresh(Repr() - old(Repr()))
      ensures history == old(history) + [Pop(branches)] && Abs() == Apply(old(Abs()), Pop(branches))
    {
      hide Maps.Valid, Maps.Abs, TagMemory.Valid, Apply, Run, IndexAfter;
      ghost var s := Abs();
      maps.PopControl(branches);
      Record(Pop(branches), s);
    }
  }
  /** A valid engine's taint is what its history has made of the initial state. */
  lemma HistoryState(e: Engine)
    requires e.Valid()
    ensures e.Abs() == Run(Initial(), e.history, |e.history|)
  {
  }

  /** What the calls after history h have made of the state that it led to. */
  lemma StateAfter(e: Engine, h: seq<Event>, calls: seq<Event>)
    requires e.Valid() && e.history == h + calls
    ensures e.Abs() == Run(Run(Initial(), h, |h|), calls, |calls|)
  {
    hide Run, Initial;
    HistoryState(e);
    RunOfBoth(Initial(), h, calls, |calls|);
  }

  /** A valid engine's lists are what its history has made of empty ones. */
  lemma HistoryLists(e: Engine, t: nat)
    requires e.Valid() && t < e.maps.marks
    ensures t < |e.tags.records| && e.tags.records[t] == IndexAfter(Initial(), e.history, |e.history|, t)
    ensures AllSized(e.history, |e.history|) && e.Abs() == Run(Initial(), e.history, |e.history|)
  {
  }

  /** The initial state holds no mark. */
  lemma NothingHeld(l: Loc)
    ensures TaintOf(Initial(), l) == {}
  {
  }

  /** In every reachable engine each list keeps its shape, records the first address of each residue class modulo
      2^32 that was written with the mark, and reports only addresses that hold it, unless a source or a clear has
      taken it from them. */
  lemma IndexOfEngine(e: Engine, t: nat, a: nat)
    requires e.Valid() && t < e.maps.marks
    ensures Kept(e.tags.records[t])
    ensures Recorded(e.tags.records[t], a) <==> FirstBefore(Initial(), e.history, |e.history|, t, a)
    ensures Reports(e.tags.records[t], a) ==>
              (t in TaintOf(e.Abs(), M(a)) <==> !Lost(Initial(), e.history, |e.history|, t, a))
    ensures Reports(e.tags.records[t], a) && Spared(e.history, |e.history|, a) ==> t in TaintOf(e.Abs(), M(a))
  {
    hide Engine.Valid, Engine.Abs, Kept, Recorded, Reports, FirstBefore, Lost, Spared, Run, IndexAfter, AllSized,
      TaintOf, Initial;
    var h := e.history;
    HistoryLists(e, t);
    IndexKept(Initial(), h, |h|, t);
    RecordedIffFirst(Initial(), h, |h|, t, a);
    if Spared(h, |h|, a) {
      ReportedHoldsMark(Initial(), h, |h|, t, a);
    }
    if Reports(e.tags.records[t], a) {
      ReportedHoldsIff(Initial(), h, |h|, t, a);
    }
  }

  /** When a reachable engine's list is right about an address, where no two addresses written with the mark differ
      by a multiple of 2^32. */
  lemma ReportOfEngine(e: Engine, t: nat, a: nat)
    requires e.Valid() && t < e.maps.marks && NoAliases(Initial(), e.history, |e.history|, t)
    ensures var h, held := e.history, t in TaintOf(e.Abs(), M(a));
            var tagged, dropped := TaggedBefore(Initial(), h, |h|, t, a), Dropped(Initial(), h, |h|, t, a);
            && ((Reports(e.tags.records[t], a) <==> held) <==>
                !(held && (!tagged || dropped)) && !(tagged && !dropped && Lost(Initial(), h, |h|, t, a)))
            && (Spared(h, |h|, a) ==>
                  ((Reports(e.tags.records[t], a) <==> held) <==> !(held && dropped)))
  {
    hide Engine.Valid, Engine.Abs, Reports, TaggedBefore, Dropped, Lost, Spared, NoAliases, Run, IndexAfter, AllSized,
      TaintOf, Initial;
    var h := e.history;
    HistoryLists(e, t);
    NothingHeld(M(a));
    ReportRightIff(Initial(), h, |h|, t, a);
    if Spared(h, |h|, a) {
      SparedRightIff(Initial(), h, |h|, t, a);
    }
  }

  // ---------------------------------------------------------------- a mark from its source to a copy

  /** A source gives a byte a mark, and an instruction copies the byte to another. */
  function CopyByte(t: nat): seq<Event> {
    [NewTaint(0, 1, t), LoadMem(0, 1, SRC), SetMem(8, 1, [SRC])]
  }

  lemma CopyWrites(s: State, t: nat)
    ensures t in Written(Run(s, CopyByte(t), 2), [SRC])
  {
    hide Write, UnionOf, Written, MemLocs;
    var es := CopyByte(t);
    var s1 := Apply(s, es[0]);
    assert Run(s, es, 0) == s;
    assert Run(s, es, 1) == s1 == Write(s, MemLocs(0, 1), {t});
    assert Run(s, es, 2) == Write(s1, {S(SRC)}, UnionOf(s1, MemLocs(0, 1)));
    MemLocsStep(0, 0);
    WriteAt(s, MemLocs(0, 1), {t}, M(0));
    UnionHas(s1, MemLocs(0, 1), t);
    WriteAt(s1, {S(SRC)}, UnionOf(s1, MemLocs(0, 1)), S(SRC));
    WrittenFrom(Run(s, es, 2), t);
  }

  lemma CopyTags(t: nat, i: nat, a: nat)
    requires i < 3
    ensures Tags(Initial(), CopyByte(t), i, t, a) <==> i == 2 && a == 8
    ensures !Untags(Initial(), CopyByte(t), i, t, a)
    ensures Gains(Initial(), CopyByte(t), i, t, a) <==> i == 0 && a == 0
    ensures !Loses(Initial(), CopyByte(t), i, t, a)
  {
    CopyWrites(Initial(), t);
    hide Written, Run, Initial;
  }

  /** The copy is reported and holds the mark, it is spared, and there are no aliases; the byte that the source gave
      the mark holds it and is not recorded. */
  lemma CopyIsReported(t: nat)
    ensures var es, rs := CopyByte(t), IndexAfter(Initial(), CopyByte(t), 3, t);
            && AllSized(es, 3) && Spared(es, 3, 8) && NoAliases(Initial(), es, 3, t)
            && Reports(rs, 8) && t in TaintOf(Run(Initial(), es, 3), M(8))
            && !Recorded(rs, 0) && t in TaintOf(Run(Initial(), es, 3), M(0))
  {
    hide Tags, Untags, Gains, Loses, Recorded, Reports, IndexAfter, Run, Initial;
    var s, es := Initial(), CopyByte(t);
    forall i, a | 0 <= i < 3
      ensures Tags(s, es, i, t, a) <==> i == 2 && a == 8
      ensures !Takes(s, es, i, t, a) && (Gains(s, es, i, t, a) <==> i == 0 && a == 0)
    {
      CopyTags(t, i, a);
    }
    NearMeansNoAliases(s, es, 3, t, 8);
    assert Tags(s, es, 2, t, 8) && Gains(s, es, 0, t, 0);
    RecordedIffTagged(s, es, 3, t, 0);
    ReportsIff(s, es, 3, t, 8);
    NothingHeld(M(0));
    NothingHeld(M(8));
    assert Gives(s, es, 2, t, 8) && Gives(s, es, 0, t, 0);
    HoldsIffGiven(s, es, 3, t, 8);
    HoldsIffGiven(s, es, 3, t, 0);
  }

  /** If a source then gives the copy's byte another mark, the byte is still reported for the one it has lost. */
  lemma OverwrittenIsReported(t: nat, u: nat)
    requires t != u
    ensures var es := CopyByte(t) + [NewTaint(8, 1, u)];
            && AllSized(es, 4) && Reports(IndexAfter(Initial(), es, 4, t), 8)
            && t !in TaintOf(Run(Initial(), es, 4), M(8))
  {
    var s, h, e := Initial(), CopyByte(t), NewTaint(8, 1, u);
    CopyIsReported(t);
    ExtendRun(s, h, e, t);
    assert Loses(s, h + [e], 3, t, 8);
    MemoryStep(s, h + [e], 3, t, 8);
    OneEffect(s, h + [e], 3, t, 8);
  }

  /** In every reachable engine no pending control entry is empty, and the stack and frame pointers have
      no taint. */
  lemma ControlOfEngine(e: Engine, r: Reg)
    requires e.Valid() && (r == ESP || r == EBP)
    ensures ControlNonEmpty(e.Abs()) && R(r) !in e.Abs()
  {
    ControlOnlyGrows(Initial(), e.history, |e.history|, |e.history|, 0);
    PointerRegistersStayClean(Initial(), e.history, |e.history|, r);
  }
}
